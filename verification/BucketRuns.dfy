/** Whole-run theorems about one entity's bucket. */
module BucketRuns {
  import opened Numbers
  import opened Sequences
  import opened TokenBucket

  function Forever(p: Params): Params {
    p.(eviction := Never)
  }

  /** Clock of everything that reads one: merges carry no time. */
  predicate Ordered(tr: seq<Event>) {
    forall i, j | 0 <= i < j < |tr| && !tr[i].Merge? && !tr[j].Merge? :: tr[i].now <= tr[j].now
  }

  predicate UpTo(tr: seq<Event>, clock: real) {
    forall k | 0 <= k < |tr| && !tr[k].Merge? :: tr[k].now <= clock
  }

  predicate SaneEvent(ev: Event) {
    match ev
    case Call(_, cost, limit) => cost >= 0 && limit >= 0
    case Merge(level) => level >= 0.0
    case Sweep(_) => true
  }

  predicate Sane(tr: seq<Event>) {
    forall k | 0 <= k < |tr| :: SaneEvent(tr[k])
  }

  /** An idle hour refills every bucket of the run. */
  predicate RefilledWithinTTL(p: Params, tr: seq<Event>) {
    forall k | 0 <= k < |tr| && tr[k].Call? :: tr[k].limit as real <= Earned(p.rate, TTL)
  }

  function CallsOf(tr: seq<Event>): seq<Event> {
    if tr == [] then [] else CallsOf(Prefix(tr)) + if Last(tr).Call? then [Last(tr)] else []
  }

  lemma AppendRuns(p: Params, tr: seq<Event>, ev: Event)
    ensures Run(p, tr + [ev]) == Step(p, Run(p, tr), ev)
    ensures Spent(p, tr + [ev], 0) == Spent(p, tr, 0) + Charge(p, Run(p, tr), ev)
  {
    assert Prefix(tr + [ev]) == tr;
  }

  // ---------------------------------------------------------------------------------------------
  // The bucket is a (limit, rate) regulator
  // ---------------------------------------------------------------------------------------------

  lemma {:induction false} TokensStayNonnegative(p: Params, tr: seq<Event>)
    requires p.rate >= 0.0 && Sane(tr) && (p.clamped || Ordered(tr))
    ensures Run(p, tr).Some? ==>
              && Run(p, tr).value.tokens >= 0.0
              && exists k :: 0 <= k < |tr| && tr[k].Call? && tr[k].now == Run(p, tr).value.lastRefill
  {
    if tr != [] {
      var pre, ev := Prefix(tr), Last(tr);
      TokensStayNonnegative(p, pre);
      assert SaneEvent(ev);
      if ev.Call? {
        assert tr[|tr| - 1].now == Run(p, tr).value.lastRefill;
        if Run(p, pre).Some? {
          var e := Run(p, pre).value;
          var k :| 0 <= k < |pre| && pre[k].Call? && pre[k].now == e.lastRefill;
          assert tr[k] == pre[k];
          EarnedMonotone(p.rate, 0.0, Elapsed(p, e.lastRefill, ev.now));
        }
      } else if Run(p, tr).Some? {
        var k :| 0 <= k < |pre| && pre[k].Call? && pre[k].now == Run(p, pre).value.lastRefill;
        assert tr[k] == pre[k];
      }
    }
  }

  /** From any earlier call on, the cost admitted never exceeds that call's limit plus what the time
      counted since earned, whatever limits and merges came between; on a monotone clock that is the
      elapsed time. */
  lemma AdmittedCostIsRegulated(p: Params, tr: seq<Event>, i: nat)
    requires p.rate >= 0.0 && p.eviction.Never? && Sane(tr) && (p.clamped || Ordered(tr))
    requires i < |tr| && tr[i].Call?
    ensures Fits(p.rate, tr[i].limit as real, Counted(p, tr, i), Spent(p, tr, i))
    ensures Ordered(tr) ==> Fits(p.rate, tr[i].limit as real, LastCall(tr) - tr[i].now, Spent(p, tr, i))
  {
    TokensAreTheEnvelope(p, tr);
    TokensStayNonnegative(p, tr);
    assert Draws(tr, i);
    DrawsOnlyOnceStarted(tr, i);
    assert Run(p, tr).value.tokens <= Line(p, tr, i);
    if Ordered(tr) {
      CountedIsElapsed(p, tr, i);
      assert Last(tr[..i + 1]) == tr[i];
    }
  }

  // ---------------------------------------------------------------------------------------------
  // For unit costs no other policy admits more
  // ---------------------------------------------------------------------------------------------

  predicate UnitCalls(tr: seq<Event>) {
    forall k | 0 <= k < |tr| :: tr[k].Call? && tr[k].cost == 1
  }

  /** Number of calls among `d[i..]` that the selection `d` picks. */
  function Picked(d: seq<bool>, i: nat): int
    requires i <= |d|
  {
    if i == |d| then 0 else Picked(d[..|d| - 1], i) + if d[|d| - 1] then 1 else 0
  }

  ghost predicate WindowFits(p: Params, tr: seq<Event>, d: seq<bool>, i: nat, j: nat)
    requires UnitCalls(tr) && |d| == |tr| && i <= j < |tr|
  {
    Picked(d[..j + 1], i) as real <= tr[i].limit as real + Earned(p.rate, tr[j].now - tr[i].now)
  }

  /** Every stretch that ends in a picked call stays within the limit of its first call plus what
      its duration earned. */
  ghost predicate Feasible(p: Params, tr: seq<Event>, d: seq<bool>)
    requires UnitCalls(tr) && |d| == |tr|
  {
    forall i: nat, j: nat | i <= j < |tr| && d[j] :: WindowFits(p, tr, d, i, j)
  }

  lemma {:induction false} PickedSplits(d: seq<bool>, i: nat)
    requires i <= |d|
    ensures Picked(d, 0) == Picked(d[..i], 0) + Picked(d, i)
    decreases |d|
  {
    if i == |d| {
      assert d[..i] == d;
    } else {
      PickedSplits(d[..|d| - 1], i);
      assert d[..|d| - 1][..i] == d[..i];
    }
  }

  predicate BucketDecides(p: Params, tr: seq<Event>, d: seq<bool>)
    requires UnitCalls(tr) && |d| == |tr|
  {
    forall k | 0 <= k < |tr| :: d[k] == Admits(p, Run(p, tr[..k]), tr[k].now, 1, tr[k].limit)
  }

  /** The bucket's own decisions are such a selection. */
  lemma BucketIsFeasible(p: Params, tr: seq<Event>, d: seq<bool>)
    requires p.rate >= 0.0 && p.eviction.Never? && UnitCalls(tr) && Sane(tr) && Ordered(tr) && |d| == |tr|
    requires BucketDecides(p, tr, d)
    ensures Feasible(p, tr, d)
  {
    forall i: nat, j: nat | i <= j < |tr| && d[j] ensures WindowFits(p, tr, d, i, j) {
      BucketWindowFits(p, tr, d, i, j);
    }
  }

  lemma BucketWindowFits(p: Params, tr: seq<Event>, d: seq<bool>, i: nat, j: nat)
    requires p.rate >= 0.0 && p.eviction.Never? && UnitCalls(tr) && Sane(tr) && Ordered(tr) && |d| == |tr|
    requires BucketDecides(p, tr, d) && i <= j < |tr|
    ensures WindowFits(p, tr, d, i, j)
  {
    BucketDecidesPrefix(p, tr, d, j + 1);
    PrefixStaysSane(tr, j + 1);
    BucketWholeRunFits(p, tr[..j + 1], d[..j + 1], i, tr[i], tr[j]);
  }

  lemma BucketWholeRunFits(p: Params, tr: seq<Event>, d: seq<bool>, i: nat, first: Event, last: Event)
    requires p.rate >= 0.0 && p.eviction.Never? && UnitCalls(tr) && Sane(tr) && Ordered(tr) && |d| == |tr|
    requires BucketDecides(p, tr, d) && i < |tr| && tr[i] == first && Last(tr) == last
    ensures Picked(d, i) as real <= first.limit as real + Earned(p.rate, last.now - first.now)
  {
    PickedIsSpent(p, tr, d, i);
    UnitCostIsRegulated(p, tr, i);
  }

  lemma UnitCostIsRegulated(p: Params, tr: seq<Event>, i: nat)
    requires p.rate >= 0.0 && p.eviction.Never? && UnitCalls(tr) && Sane(tr) && Ordered(tr) && i < |tr|
    ensures Spent(p, tr, i) as real <= tr[i].limit as real + Earned(p.rate, tr[|tr| - 1].now - tr[i].now)
  {
    LastCallOfUnitCalls(tr);
    AdmittedCostIsRegulated(p, tr, i);
  }

  lemma PrefixStaysSane(tr: seq<Event>, n: nat)
    requires Sane(tr) && Ordered(tr) && n <= |tr|
    ensures Sane(tr[..n]) && Ordered(tr[..n])
  {
  }

  lemma LastCallOfUnitCalls(tr: seq<Event>)
    requires UnitCalls(tr) && tr != []
    ensures LastCall(tr) == Last(tr).now && Last(tr).Call?
  {
  }

  lemma BucketDecidesPrefix(p: Params, tr: seq<Event>, d: seq<bool>, n: nat)
    requires UnitCalls(tr) && |d| == |tr| && n <= |tr| && BucketDecides(p, tr, d)
    ensures UnitCalls(tr[..n]) && BucketDecides(p, tr[..n], d[..n])
  {
    forall k | 0 <= k < n
      ensures d[..n][k] == Admits(p, Run(p, tr[..n][..k]), tr[..n][k].now, 1, tr[..n][k].limit)
    {
      assert tr[..n][..k] == tr[..k];
    }
  }

  lemma {:induction false} PickedIsSpent(p: Params, tr: seq<Event>, d: seq<bool>, i: nat)
    requires UnitCalls(tr) && |d| == |tr| && i <= |tr| && BucketDecides(p, tr, d)
    ensures Picked(d, i) == Spent(p, tr, i)
    decreases |tr|
  {
    if i < |tr| {
      var n := |tr| - 1;
      assert d[n] == Admits(p, Run(p, tr[..n]), tr[n].now, 1, tr[n].limit);
      BucketDecidesPrefix(p, tr, d, n);
      PickedIsSpent(p, tr[..n], d[..n], i);
    }
  }

  /** No feasible selection of the same calls is ever ahead of the bucket. */
  lemma {:induction false} BucketAdmitsMost(p: Params, tr: seq<Event>, d: seq<bool>)
    requires p.eviction.Never? && UnitCalls(tr) && |d| == |tr| && Feasible(p, tr, d)
    requires p.clamped ==> MonotoneCalls(tr)
    ensures Picked(d, 0) <= Spent(p, tr, 0)
    decreases |tr|
  {
    if tr != [] {
      var n := |tr| - 1;
      var pre, call := tr[..n], tr[n];
      FeasiblePrefix(p, tr, d, n);
      BucketAdmitsMost(p, pre, d[..n]);
      if d[n] && !Admits(p, Run(p, pre), call.now, 1, call.limit) {
        var i := FindCrowdedSuffix(p, tr, d);
        FeasiblePrefix(p, tr, d, i);
        BucketAdmitsMost(p, tr[..i], d[..i]);
        assert pre[..i] == tr[..i] && d[..n][..i] == d[..i];
        PickedSplits(d[..n], i);
        SpentSplits(p, pre, i);
      }
    }
  }

  lemma BucketLeadsAtEveryPrefix(p: Params, tr: seq<Event>, d: seq<bool>, n: nat)
    requires p.eviction.Never? && UnitCalls(tr) && |d| == |tr| && Feasible(p, tr, d) && n <= |tr|
    requires p.clamped ==> MonotoneCalls(tr)
    ensures Picked(d[..n], 0) <= Spent(p, tr[..n], 0)
  {
    FeasiblePrefix(p, tr, d, n);
    BucketAdmitsMost(p, tr[..n], d[..n]);
  }

  /** When the bucket denies a call that a feasible selection picks, it has admitted more than the
      selection since some earlier call. */
  lemma FindCrowdedSuffix(p: Params, tr: seq<Event>, d: seq<bool>) returns (i: nat)
    requires p.eviction.Never? && UnitCalls(tr) && |d| == |tr| > 0 && Feasible(p, tr, d)
    requires p.clamped ==> MonotoneCalls(tr)
    requires d[|tr| - 1] && !Admits(p, Run(p, Prefix(tr)), Last(tr).now, 1, Last(tr).limit)
    ensures i < |tr| - 1 && Picked(d[..|tr| - 1], i) < Spent(p, Prefix(tr), i)
  {
    var n := |tr| - 1;
    var pre, call := Prefix(tr), Last(tr);
    assert d[..n + 1] == d && pre + [call] == tr;
    AdmittedIffEverySuffixFits(p, pre, call.now, 1, call.limit);
    assert WindowFits(p, tr, d, n, n) && Picked(d, n) == 1;
    assert call.limit >= 1;
    assert forall k | 0 <= k < n :: pre[k] == tr[k];
    assert forall k: nat | k < n :: WindowFits(p, tr, d, k, n);
    i :| i < n && Draws(pre, i) && !SuffixFits(p, pre, i, call.now, 1);
    UnfitSuffixIsCrowded(p, tr, d, i);
  }

  lemma UnfitSuffixIsCrowded(p: Params, tr: seq<Event>, d: seq<bool>, i: nat)
    requires UnitCalls(tr) && |d| == |tr| && i < |tr| - 1 && d[|tr| - 1]
    requires WindowFits(p, tr, d, i, |tr| - 1)
    requires p.clamped ==> MonotoneCalls(tr)
    requires !SuffixFits(p, Prefix(tr), i, Last(tr).now, 1)
    ensures Picked(d[..|tr| - 1], i) < Spent(p, Prefix(tr), i)
  {
    assert d[..|tr|] == d;
    assert Last(Prefix(tr)[..i + 1]) == tr[i];
    assert Prefix(tr) + [Last(tr)] == tr && Last(tr) == Call(Last(tr).now, 1, Last(tr).limit);
    SuffixIsAWindow(p, Prefix(tr), i, Last(tr).now, 1, Last(tr).limit);
    assert Picked(d, i) == Picked(d[..|tr| - 1], i) + 1;
  }

  lemma FeasiblePrefix(p: Params, tr: seq<Event>, d: seq<bool>, n: nat)
    requires UnitCalls(tr) && |d| == |tr| && n <= |tr| && Feasible(p, tr, d)
    requires p.clamped ==> MonotoneCalls(tr)
    ensures UnitCalls(tr[..n]) && Feasible(p, tr[..n], d[..n])
    ensures p.clamped ==> MonotoneCalls(tr[..n])
  {
    forall i: nat, j: nat | i <= j < n && d[..n][j] ensures WindowFits(p, tr[..n], d[..n], i, j) {
      assert d[..n][..j + 1] == d[..j + 1];
      assert WindowFits(p, tr, d, i, j);
    }
  }

  // ---------------------------------------------------------------------------------------------
  // Gossip never admits more
  // ---------------------------------------------------------------------------------------------

  /** Calls cost nothing or all the same. */
  predicate CommonCost(tr: seq<Event>, c: int) {
    forall k | 0 <= k < |tr| && tr[k].Call? :: tr[k].cost == 0 || tr[k].cost == c
  }

  /** Number of calls of cost `c` that the run admits. */
  function Grants(p: Params, tr: seq<Event>, c: int): int {
    if tr == [] then 0
    else
      var pre, ev := Prefix(tr), Last(tr);
      Grants(p, pre, c)
      + if ev.Call? && ev.cost == c && Admits(p, Run(p, pre), ev.now, ev.cost, ev.limit) then 1 else 0
  }

  lemma {:induction false} SpentIsGrants(p: Params, tr: seq<Event>, c: int)
    requires CommonCost(tr, c)
    ensures Spent(p, tr, 0) == c * Grants(p, tr, c)
  {
    if tr != [] {
      SpentIsGrants(p, Prefix(tr), c);
      var g := Grants(p, Prefix(tr), c);
      assert c * (g + 1) == c * g + c;
    }
  }

  lemma MultiplesAreApart(c: int, m: int, n: int)
    requires c >= 0 && c * m < c * n
    ensures c * m + c <= c * n
  {
    if n <= m {
      ProductGrows(c, n, m);
    } else {
      ProductGrows(c, m + 1, n);
      assert c * (m + 1) == c * m + c;
    }
  }

  lemma {:induction false} ProductGrows(c: int, m: int, n: int)
    requires c >= 0 && m <= n
    ensures c * m <= c * n
    decreases n - m
  {
    if m < n {
      ProductGrows(c, m, n - 1);
      assert c * n == c * (n - 1) + c;
    }
  }

  /** The run, had no peer ever been heard. */
  function Unmerged(tr: seq<Event>): seq<Event> {
    if tr == [] then [] else Unmerged(Prefix(tr)) + if Last(tr).Merge? then [] else [Last(tr)]
  }

  /** The first bucket has admitted no more; where the second holds an entry, so does the first, and
      neither is its sum of admissions and level higher. */
  ghost predicate Behind(p: Params, tr: seq<Event>, q: Params, other: seq<Event>) {
    && Spent(p, tr, 0) <= Spent(q, other, 0)
    && (Run(q, other).Some? ==>
        && Run(p, tr).Some? && Run(p, tr).value.lastRefill == Run(q, other).value.lastRefill
        && Spent(p, tr, 0) as real + Run(p, tr).value.tokens <= Spent(q, other, 0) as real + Run(q, other).value.tokens)
  }

  lemma CallKeepsBehind(p: Params, tr: seq<Event>, q: Params, other: seq<Event>, ev: Event, c: int)
    requires p.rate == q.rate && p.clamped == q.clamped && c >= 0 && ev.Call? && (ev.cost == 0 || ev.cost == c)
    requires CommonCost(tr, c) && CommonCost(other, c) && Behind(p, tr, q, other)
    ensures Behind(p, tr + [ev], q, other + [ev])
  {
    AppendRuns(p, tr, ev);
    AppendRuns(q, other, ev);
    if Charge(p, Run(p, tr), ev) > Charge(q, Run(q, other), ev) {
      SpentIsGrants(p, tr, c);
      SpentIsGrants(q, other, c);
      MultiplesAreApart(c, Grants(p, tr, c), Grants(q, other, c));
    }
  }

  /** Merging peers' levels into a bucket never lets it admit more than the same bucket left alone, at
      any prefix, under any clock, limits and eviction, when all calls that cost anything cost the same. */
  lemma {:induction false} MergingNeverAdmitsMore(p: Params, tr: seq<Event>, c: int)
    requires c >= 0 && CommonCost(tr, c)
    ensures CommonCost(Unmerged(tr), c) && Behind(p, tr, p, Unmerged(tr))
  {
    if tr != [] {
      var pre, ev := Prefix(tr), Last(tr);
      MergingNeverAdmitsMore(p, pre, c);
      if ev.Merge? {
        assert Unmerged(tr) == Unmerged(pre);
      } else if ev.Sweep? {
        AppendRuns(p, Unmerged(pre), ev);
      } else {
        CallKeepsBehind(p, pre, p, Unmerged(pre), ev, c);
        assert pre + [ev] == tr;
      }
    }
  }

  /** Without merges, neither does a bucket that never evicts admit more than one that does. */
  lemma {:induction false} KeepingNeverAdmitsMore(p: Params, tr: seq<Event>, c: int)
    requires c >= 0 && CommonCost(tr, c) && MergeFree(tr)
    ensures Behind(Forever(p), tr, p, tr)
  {
    if tr != [] {
      var pre, ev := Prefix(tr), Last(tr);
      KeepingNeverAdmitsMore(p, pre, c);
      if ev.Call? {
        CallKeepsBehind(Forever(p), pre, p, pre, ev, c);
        assert pre + [ev] == tr;
      }
    }
  }

  /** The level itself may end up higher on the merging side. */
  lemma MergingMayKeepMoreTokens()
    ensures UnitCalls([UNIT_CALL, UNIT_CALL])
    ensures Run(TEN_PER_SECOND, [UNIT_CALL, Merge(0.5), UNIT_CALL]) == Some(Entry(0.5, 0.0))
    ensures Unmerged([UNIT_CALL, Merge(0.5), UNIT_CALL]) == [UNIT_CALL, UNIT_CALL]
    ensures Run(TEN_PER_SECOND, [UNIT_CALL, UNIT_CALL]) == Some(Entry(0.0, 0.0))
  {
    var p := TEN_PER_SECOND;
    AppendsTo(p, [], UNIT_CALL, [UNIT_CALL]);
    AppendsTo(p, [UNIT_CALL], Merge(0.5), [UNIT_CALL, Merge(0.5)]);
    AppendsTo(p, [UNIT_CALL, Merge(0.5)], UNIT_CALL, [UNIT_CALL, Merge(0.5), UNIT_CALL]);
    AppendsTo(p, [UNIT_CALL], UNIT_CALL, [UNIT_CALL, UNIT_CALL]);
  }

  const UNIT_CALL := Call(0.0, 1, 2)

  predicate CostsIn(tr: seq<Event>, costs: iset<int>) {
    forall k | 0 <= k < |tr| && tr[k].Call? :: tr[k].cost in costs
  }

  /** No run with such costs ever admits more for merging. */
  ghost predicate MergingIsHarmless(p: Params, costs: iset<int>) {
    forall tr: seq<Event> | CostsIn(tr, costs) :: Spent(p, tr, 0) <= Spent(p, Unmerged(tr), 0)
  }

  ghost predicate AtMostOnePositive(costs: iset<int>) {
    forall a, b | a in costs && b in costs && a > 0 && b > 0 :: a == b
  }

  /** Merging is harmless exactly for those sets of costs that hold at most one positive cost. */
  lemma MergingIsHarmlessExactly(p: Params, costs: iset<int>)
    requires p.rate > 0.0 && forall c | c in costs :: c >= 0
    ensures MergingIsHarmless(p, costs) <==> AtMostOnePositive(costs)
  {
    if AtMostOnePositive(costs) {
      var c := if exists c :: c in costs && c > 0 then var c :| c in costs && c > 0; c else 0;
      forall tr: seq<Event> | CostsIn(tr, costs) ensures Spent(p, tr, 0) <= Spent(p, Unmerged(tr), 0) {
        MergingNeverAdmitsMore(p, tr, c);
      }
    } else {
      var a, b :| a in costs && b in costs && 0 < a < b;
      var tr := MergingMayAdmitMoreForUnequalCosts(p, a, b);
    }
  }

  /** Two buckets drained below two calls of cost `a`; one merges a level just below `a`, saves its
      tokens where the other spends them, and can afford `b` first. */
  lemma MergingMayAdmitMoreForUnequalCosts(p: Params, a: int, b: int) returns (tr: seq<Event>)
    requires p.rate > 0.0 && 0 < a < b
    ensures Sane(tr) && Ordered(tr) && CostsIn(tr, iset{a, b})
    ensures Spent(p, tr, 0) > Spent(p, Unmerged(tr), 0)
  {
    var limit := a + b;
    var taken := LargestMultiple(a, b);
    var rest := b - taken;
    var drained := Drain(p, a, limit, taken);
    var level := (rest + a) as real / 2.0;
    var wait := TimeToEarn(p.rate, b as real - level);
    var small, big := Call(0.0, a, limit), Call(wait, b, limit);
    tr := drained + [Merge(level)];
    AppendsTo(p, drained, Merge(level), tr);
    AfterTheSmallCall(p, tr, drained, small, level, rest);
    AfterTheBigCall(p, tr + [small], drained + [small], big, level, rest);
    tr := tr + [small] + [big];
    RaceIsSane(drained, small, big, level, iset{a, b});
  }

  lemma RaceIsSane(drained: seq<Event>, small: Event, big: Event, level: real, costs: iset<int>)
    requires small.Call? && big.Call? && small.now <= big.now && SaneEvent(small) && SaneEvent(big) && level >= 0.0
    requires small.cost in costs && big.cost in costs
    requires forall k | 0 <= k < |drained| :: drained[k] == small
    ensures var tr := drained + [Merge(level)] + [small] + [big];
            Sane(tr) && Ordered(tr) && CostsIn(tr, costs)
  {
    var tr := drained + [Merge(level)] + [small] + [big];
    forall k | 0 <= k < |tr| ensures tr[k] == small || tr[k] == Merge(level) || (tr[k] == big && k == |tr| - 1) {
    }
  }

  /** The merged bucket denies the small call, the other one admits it. */
  lemma AfterTheSmallCall(p: Params, merged: seq<Event>, alone: seq<Event>, small: Event, level: real, rest: int)
    requires small.Call? && small.now == 0.0 && 0 <= rest && rest as real < level < small.cost as real
    requires rest + small.cost <= small.limit && Unmerged(merged) == alone == Unmerged(alone)
    requires Run(p, merged) == Some(Entry(level, 0.0))
    requires Run(p, alone) == Some(Entry((rest + small.cost) as real, 0.0))
    ensures Unmerged(merged + [small]) == alone + [small] == Unmerged(alone + [small])
    ensures Run(p, merged + [small]) == Some(Entry(level, 0.0))
    ensures Run(p, alone + [small]) == Some(Entry(rest as real, 0.0))
    ensures Spent(p, merged + [small], 0) == Spent(p, merged, 0)
    ensures Spent(p, alone + [small], 0) == Spent(p, alone, 0) + small.cost
  {
    AppendsTo(p, merged, small, merged + [small]);
    AppendsTo(p, alone, small, alone + [small]);
    CallAtOnce(p, level, small);
    CallAtOnce(p, (rest + small.cost) as real, small);
  }

  /** The wait is what the merged bucket needs for the big call, and too short for the other one. */
  lemma AfterTheBigCall(p: Params, merged: seq<Event>, alone: seq<Event>, big: Event, level: real, rest: int)
    requires p.rate > 0.0 && big.Call? && big.cost <= big.limit && rest as real < level < big.cost as real
    requires big.now > 0.0 && Earned(p.rate, big.now) == big.cost as real - level && Unmerged(merged) == alone
    requires Run(p, merged) == Some(Entry(level, 0.0)) && Run(p, alone) == Some(Entry(rest as real, 0.0))
    ensures Unmerged(merged + [big]) == alone + [big]
    ensures Spent(p, merged + [big], 0) == Spent(p, merged, 0) + big.cost
    ensures Spent(p, alone + [big], 0) == Spent(p, alone, 0)
  {
    AppendsTo(p, merged, big, merged + [big]);
    AppendsTo(p, alone, big, alone + [big]);
    CallOnTime(p, level, big);
  }

  lemma CallAtOnce(p: Params, level: real, call: Event)
    requires call.Call? && call.now == 0.0 && level <= call.limit as real
    ensures Level(p, Some(Entry(level, 0.0)), 0.0, call.limit) == level
  {
    EarnedSum(p.rate, 0.0, 0.0);
  }

  lemma CallOnTime(p: Params, level: real, call: Event)
    requires call.Call? && call.now > 0.0 && call.cost <= call.limit
    requires Earned(p.rate, call.now) == call.cost as real - level
    ensures Level(p, Some(Entry(level, 0.0)), call.now, call.limit) == call.cost as real
  {
    assert Elapsed(p, 0.0, call.now) == call.now;
  }

  lemma TimeToEarn(rate: real, amount: real) returns (wait: real)
    requires rate > 0.0 && amount > 0.0
    ensures wait > 0.0 && Earned(rate, wait) == amount
  {
    wait := amount * 1000.0 / rate;
    assert wait * rate == amount * 1000.0;
  }

  predicate Multiple(n: nat, a: nat)
    requires a > 0
  {
    n == 0 || (n >= a && Multiple(n - a, a))
  }

  lemma {:induction false} LargestMultiple(a: nat, b: nat) returns (n: nat)
    requires a > 0
    ensures Multiple(n, a) && b - a < n <= b
  {
    if b < a {
      n := 0;
    } else {
      n := LargestMultiple(a, b - a);
      n := n + a;
    }
  }

  lemma {:induction false} Drain(p: Params, a: int, limit: int, taken: nat) returns (tr: seq<Event>)
    requires 0 < a <= taken <= limit && Multiple(taken, a)
    ensures forall k | 0 <= k < |tr| :: tr[k] == Call(0.0, a, limit)
    ensures Run(p, tr) == Some(Entry((limit - taken) as real, 0.0)) && Spent(p, tr, 0) == taken
    ensures Unmerged(tr) == tr
  {
    var call := Call(0.0, a, limit);
    if taken == a {
      AppendsTo(p, [], call, [call]);
      tr := [call];
    } else {
      var shorter := Drain(p, a, limit, taken - a);
      CallAtOnce(p, (limit - (taken - a)) as real, call);
      AppendsTo(p, shorter, call, shorter + [call]);
      tr := shorter + [call];
    }
  }

  const TEN_PER_SECOND := Params(10.0, false, Never)

  lemma AppendsTo(p: Params, tr: seq<Event>, ev: Event, longer: seq<Event>)
    requires longer == tr + [ev]
    ensures Run(p, longer) == Step(p, Run(p, tr), ev)
    ensures Spent(p, longer, 0) == Spent(p, tr, 0) + Charge(p, Run(p, tr), ev)
    ensures Unmerged(longer) == Unmerged(tr) + if ev.Merge? then [] else [ev]
  {
    AppendRuns(p, tr, ev);
    assert Prefix(longer) == tr;
  }

  // ---------------------------------------------------------------------------------------------
  // Eviction is invisible
  // ---------------------------------------------------------------------------------------------

  /** Either store holds the same entry, or one dropped an entry idle for the time to live. */
  ghost predicate Hidden(evicting: Slot, keeping: Slot, clock: real) {
    || evicting == keeping
    || (evicting.None? && keeping.Some? && keeping.value.tokens >= 0.0 && keeping.value.lastRefill <= clock - TTL)
  }

  lemma HiddenIsInvisible(p: Params, evicting: Slot, keeping: Slot, clock: real, now: real, limit: int)
    requires p.rate >= 0.0 && Hidden(evicting, keeping, clock) && clock <= now
    requires limit as real <= Earned(p.rate, TTL)
    ensures Level(p, evicting, now, limit) == Level(Forever(p), keeping, now, limit)
  {
    if evicting != keeping {
      EarnedMonotone(p.rate, TTL, Elapsed(p, keeping.value.lastRefill, now));
    }
  }

  lemma {:induction false} RunsStayHidden(p: Params, tr: seq<Event>, clock: real)
    requires p.rate >= 0.0 && Sane(tr) && Ordered(tr) && RefilledWithinTTL(p, tr)
    requires UpTo(tr, clock)
    ensures Hidden(Run(p, tr), Run(Forever(p), tr), clock)
  {
    if tr != [] {
      var pre, ev := Prefix(tr), Last(tr);
      TokensStayNonnegative(Forever(p), pre);
      if ev.Merge? {
        RunsStayHidden(p, pre, clock);
        assert SaneEvent(ev);
      } else {
        RunsStayHidden(p, pre, ev.now);
        if ev.Call? {
          HiddenIsInvisible(p, Run(p, pre), Run(Forever(p), pre), ev.now, ev.now, ev.limit);
        }
      }
    }
  }

  /** With a monotone clock and limits that an idle hour refills, every call sees the level it
      would see in a store that never evicts: merges, sweeps and limit changes included. */
  lemma EvictionIsInvisible(p: Params, tr: seq<Event>, now: real, limit: int)
    requires p.rate >= 0.0 && Sane(tr) && Ordered(tr) && RefilledWithinTTL(p, tr)
    requires limit as real <= Earned(p.rate, TTL)
    requires UpTo(tr, now)
    ensures Level(p, Run(p, tr), now, limit) == Level(Forever(p), Run(Forever(p), tr), now, limit)
  {
    RunsStayHidden(p, tr, now);
    HiddenIsInvisible(p, Run(p, tr), Run(Forever(p), tr), now, now, limit);
  }

  ghost predicate InvisibleUpTo(p: Params, cap: int) {
    forall tr, now, limit | Sane(tr) && Ordered(tr) && UpTo(tr, now) && LimitsUpTo(tr, cap) && limit <= cap ::
      Level(p, Run(p, tr), now, limit) == Level(Forever(p), Run(Forever(p), tr), now, limit)
  }

  predicate LimitsUpTo(tr: seq<Event>, cap: int) {
    forall k | 0 <= k < |tr| && tr[k].Call? :: tr[k].limit <= cap
  }

  /** A bucket drained, swept an hour later and called at once is full again too early. */
  lemma EvictionShowsAbove(p: Params, cap: int) returns (tr: seq<Event>, now: real)
    requires p.rate > 0.0 && !p.eviction.Never? && cap as real > Earned(p.rate, TTL)
    ensures Sane(tr) && Ordered(tr) && UpTo(tr, now) && LimitsUpTo(tr, cap)
    ensures Level(p, Run(p, tr), now, cap) > Level(Forever(p), Run(Forever(p), tr), now, cap)
  {
    var extra := (cap as real - Earned(p.rate, TTL)) * 500.0 / p.rate;
    assert extra * p.rate == (cap as real - Earned(p.rate, TTL)) * 500.0;
    assert extra > 0.0;
    now := TTL + extra;
    EarnedSum(p.rate, TTL, extra);
    EarnedMonotone(p.rate, 0.0, TTL);
    var drain := Call(0.0, cap, cap);
    AppendsTo(p, [], drain, [drain]);
    AppendsTo(p, [drain], Sweep(now), [drain, Sweep(now)]);
    AppendsTo(Forever(p), [], drain, [drain]);
    AppendsTo(Forever(p), [drain], Sweep(now), [drain, Sweep(now)]);
    tr := [drain, Sweep(now)];
    assert Run(p, [drain]) == Some(Entry(0.0, 0.0));
    assert Run(p, tr).None? && Run(Forever(p), tr) == Some(Entry(0.0, 0.0));
  }

  /** Eviction is invisible under limits up to `cap` if and only if an idle hour refills `cap`. */
  lemma EvictionIsInvisibleExactly(p: Params, cap: int)
    requires p.rate > 0.0 && !p.eviction.Never?
    ensures InvisibleUpTo(p, cap) <==> cap as real <= 3600.0 * p.rate
  {
    assert Earned(p.rate, TTL) == 3600.0 * p.rate;
    if cap as real <= Earned(p.rate, TTL) {
      forall tr, now, limit | Sane(tr) && Ordered(tr) && UpTo(tr, now) && LimitsUpTo(tr, cap) && limit <= cap
        ensures Level(p, Run(p, tr), now, limit) == Level(Forever(p), Run(Forever(p), tr), now, limit)
      {
        EvictionIsInvisible(p, tr, now, limit);
      }
    } else {
      var tr, now := EvictionShowsAbove(p, cap);
    }
  }

  lemma {:induction false} EvictionNeverChangesTheTotal(p: Params, tr: seq<Event>)
    requires p.rate >= 0.0 && Sane(tr) && Ordered(tr) && RefilledWithinTTL(p, tr)
    ensures Spent(p, tr, 0) == Spent(Forever(p), tr, 0)
  {
    if tr != [] {
      var pre, ev := Prefix(tr), Last(tr);
      EvictionNeverChangesTheTotal(p, pre);
      if ev.Call? {
        EvictionIsInvisible(p, pre, ev.now, ev.limit);
      }
    }
  }

  // ---------------------------------------------------------------------------------------------
  // The stores agree with each other
  // ---------------------------------------------------------------------------------------------

  predicate MergeFree(tr: seq<Event>) {
    forall k | 0 <= k < |tr| :: !tr[k].Merge?
  }

  ghost predicate RefilledAtACall(p: Params, tr: seq<Event>) {
    Run(p, tr).Some? ==> exists k :: 0 <= k < |tr| && tr[k].Call? && tr[k].now == Run(p, tr).value.lastRefill
  }

  lemma ClampingIsIrrelevant(p: Params, q: Params, tr: seq<Event>, now: real, limit: int)
    requires p.rate == q.rate && RefilledAtACall(p, tr)
    requires forall k | 0 <= k < |tr| && tr[k].Call? :: tr[k].now <= now
    ensures Level(p, Run(p, tr), now, limit) == Level(q, Run(p, tr), now, limit)
  {
    if Run(p, tr).Some? {
      var k :| 0 <= k < |tr| && tr[k].Call? && tr[k].now == Run(p, tr).value.lastRefill;
    }
  }

  /** Without merges, only the calls matter to a store that never evicts, and on a monotone clock
      clamping the elapsed time changes nothing. */
  lemma {:induction false} OnlyCallsMatter(p: Params, q: Params, tr: seq<Event>)
    requires p.eviction.Never? && q.eviction.Never? && p.rate == q.rate
    requires MergeFree(tr) && Ordered(tr)
    ensures Run(p, tr) == Run(q, CallsOf(tr))
    ensures RefilledAtACall(p, tr)
  {
    if tr != [] {
      var pre, ev := Prefix(tr), Last(tr);
      OnlyCallsMatter(p, q, pre);
      if ev.Call? {
        ClampingIsIrrelevant(p, q, pre, ev.now, ev.limit);
        AppendRuns(q, CallsOf(pre), ev);
        assert tr[|tr| - 1].now == ev.now;
      } else {
        assert CallsOf(tr) == CallsOf(pre);
        if Run(p, pre).Some? {
          var k :| 0 <= k < |pre| && pre[k].Call? && pre[k].now == Run(p, pre).value.lastRefill;
          assert tr[k] == pre[k];
        }
      }
    }
  }

  lemma {:induction false} UnmergedKeepsTheCalls(tr: seq<Event>)
    ensures MergeFree(Unmerged(tr)) && CallsOf(Unmerged(tr)) == CallsOf(tr)
  {
    if tr != [] {
      UnmergedKeepsTheCalls(Prefix(tr));
      if Last(tr).Merge? {
        assert Unmerged(tr) == Unmerged(Prefix(tr)) && CallsOf(tr) == CallsOf(Prefix(tr));
      } else {
        assert Prefix(Unmerged(tr)) == Unmerged(Prefix(tr));
      }
    }
  }

  lemma {:induction false} SweepsCostNothing(p: Params, tr: seq<Event>)
    requires p.eviction.Never? && MergeFree(tr)
    ensures Run(p, tr) == Run(p, CallsOf(tr)) && Spent(p, tr, 0) == Spent(p, CallsOf(tr), 0)
  {
    if tr != [] {
      SweepsCostNothing(p, Prefix(tr));
      if Last(tr).Call? {
        AppendRuns(p, CallsOf(Prefix(tr)), Last(tr));
      } else {
        assert CallsOf(tr) == CallsOf(Prefix(tr));
      }
    }
  }

  lemma {:induction false} UnitCallsShareCost(tr: seq<Event>)
    requires UnitCalls(CallsOf(tr))
    ensures CommonCost(tr, 1)
  {
    if tr != [] {
      var calls := CallsOf(tr);
      if Last(tr).Call? {
        assert Prefix(calls) == CallsOf(Prefix(tr)) && Last(calls) == Last(tr);
        assert forall k | 0 <= k < |calls| - 1 :: Prefix(calls)[k] == calls[k];
      } else {
        assert calls == CallsOf(Prefix(tr));
      }
      UnitCallsShareCost(Prefix(tr));
    }
  }

  /** Two stores of the same rate that saw the same calls, each with its own sweeps or expiries
      and its own treatment of negative elapsed time, offer the next call the same level. */
  lemma StoresAgree(p: Params, q: Params, tr: seq<Event>, tr': seq<Event>, now: real, limit: int)
    requires p.rate == q.rate >= 0.0
    requires CallsOf(tr) == CallsOf(tr') && MergeFree(tr) && MergeFree(tr')
    requires Sane(tr) && Ordered(tr) && RefilledWithinTTL(p, tr)
    requires Sane(tr') && Ordered(tr') && RefilledWithinTTL(q, tr')
    requires limit as real <= Earned(p.rate, TTL)
    requires UpTo(tr, now) && UpTo(tr', now)
    ensures Level(p, Run(p, tr), now, limit) == Level(q, Run(q, tr'), now, limit)
  {
    EvictionIsInvisible(p, tr, now, limit);
    EvictionIsInvisible(q, tr', now, limit);
    OnlyCallsMatter(Forever(p), Forever(p), tr);
    OnlyCallsMatter(Forever(q), Forever(p), tr');
    ClampingIsIrrelevant(Forever(p), Forever(q), tr, now, limit);
  }
}
