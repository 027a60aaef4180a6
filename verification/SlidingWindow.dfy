/** The Redis sorted-set sliding window (backend/src/throttle/strategies/sliding-window.strategy.ts). */
module SlidingWindow {
  import opened Numbers
  import opened Sequences

  // ---------------------------------------------------------------------------------------------
  // The full log: what the pruned and expiring sorted set stands for
  // ---------------------------------------------------------------------------------------------

  /** Number of selected arrivals in the half-open window (lo, hi]. */
  function InWindow(ts: seq<int>, sel: seq<bool>, lo: int, hi: int): nat
    requires |ts| == |sel|
  {
    if ts == [] then 0
    else InWindow(Prefix(ts), Prefix(sel), lo, hi) + if Last(sel) && lo < Last(ts) <= hi then 1 else 0
  }

  function Count(sel: seq<bool>): nat {
    if sel == [] then 0 else Count(Prefix(sel)) + if Last(sel) then 1 else 0
  }

  predicate Nondecreasing(ts: seq<int>) {
    forall i, j | 0 <= i < j < |ts| :: ts[i] <= ts[j]
  }

  /** The exact rule: admit while fewer than `limit` admissions lie in (now - window, now]. */
  function Decisions(limit: int, window: nat, ts: seq<int>): (sel: seq<bool>)
    ensures |sel| == |ts|
  {
    if ts == [] then []
    else
      var sel := Decisions(limit, window, Prefix(ts));
      sel + [InWindow(Prefix(ts), sel, Last(ts) - window, Last(ts)) < limit]
  }

  lemma {:induction false} DecisionsOfPrefix(limit: int, window: nat, ts: seq<int>, n: nat)
    requires n <= |ts|
    ensures Decisions(limit, window, ts)[..n] == Decisions(limit, window, ts[..n])
  {
    if n == |ts| {
      assert ts[..n] == ts;
    } else {
      DecisionsOfPrefix(limit, window, Prefix(ts), n);
      assert Prefix(ts)[..n] == ts[..n];
    }
  }

  lemma DecisionsOfLonger(limit: int, window: nat, ts: seq<int>, now: int)
    ensures Decisions(limit, window, ts + [now])
         == Decisions(limit, window, ts) + [InWindow(ts, Decisions(limit, window, ts), now - window, now) < limit]
  {
    assert Prefix(ts + [now]) == ts;
  }

  lemma {:induction false} WindowShrinks(ts: seq<int>, sel: seq<bool>, lo: int, hi: int, lo': int, hi': int)
    requires |ts| == |sel| && lo <= lo' && hi' <= hi
    ensures InWindow(ts, sel, lo', hi') <= InWindow(ts, sel, lo, hi)
  {
    if ts != [] {
      WindowShrinks(Prefix(ts), Prefix(sel), lo, hi, lo', hi');
    }
  }

  /** No window of the configured length, wherever it is placed, holds more than `limit` admissions. */
  lemma {:induction false} NoWindowIsOverfull(limit: int, window: nat, ts: seq<int>, t: int)
    requires Nondecreasing(ts)
    ensures InWindow(ts, Decisions(limit, window, ts), t - window, t) <= if limit < 0 then 0 else limit
  {
    if ts != [] {
      var sel := Decisions(limit, window, ts);
      assert Prefix(sel) == Decisions(limit, window, Prefix(ts));
      NoWindowIsOverfull(limit, window, Prefix(ts), t);
      if Last(sel) && t - window < Last(ts) <= t {
        WindowOfLastHoldsMost(ts, Prefix(sel), window, t);
      }
    }
  }

  lemma WindowOfLastHoldsMost(ts: seq<int>, sel: seq<bool>, window: nat, t: int)
    requires Nondecreasing(ts) && ts != [] && |sel| == |ts| - 1 && Last(ts) <= t
    ensures InWindow(Prefix(ts), sel, t - window, t) <= InWindow(Prefix(ts), sel, Last(ts) - window, Last(ts))
  {
    NothingIsLater(Prefix(ts), sel, Last(ts), t - window, t);
    WindowShrinks(Prefix(ts), sel, Last(ts) - window, Last(ts), t - window, Last(ts));
  }

  lemma {:induction false} NothingIsLater(ts: seq<int>, sel: seq<bool>, now: int, lo: int, hi: int)
    requires |ts| == |sel| && now <= hi && forall k | 0 <= k < |ts| :: ts[k] <= now
    ensures InWindow(ts, sel, lo, hi) == InWindow(ts, sel, lo, now)
  {
    if ts != [] {
      NothingIsLater(Prefix(ts), Prefix(sel), now, lo, hi);
    }
  }

  // ---------------------------------------------------------------------------------------------
  // Optimality
  // ---------------------------------------------------------------------------------------------

  predicate WindowRespected(limit: int, window: nat, ts: seq<int>, sel: seq<bool>, t: int)
    requires |ts| == |sel|
  {
    InWindow(ts, sel, t - window, t) <= limit
  }

  ghost predicate Respects(limit: int, window: nat, ts: seq<int>, sel: seq<bool>)
    requires |ts| == |sel|
  {
    forall t: int :: WindowRespected(limit, window, ts, sel, t)
  }

  /** The window that ends at the last arrival splits an ordered log in two. */
  lemma {:induction false} WindowIsASuffix(ts: seq<int>, lo: int, hi: int) returns (m: nat)
    requires Nondecreasing(ts) && forall k | 0 <= k < |ts| :: ts[k] <= hi
    ensures m <= |ts|
    ensures forall sel: seq<bool> | |sel| == |ts| :: Count(sel) == Count(sel[..m]) + InWindow(ts, sel, lo, hi)
  {
    if ts == [] {
      m := 0;
    } else if Last(ts) <= lo {
      m := |ts|;
      forall sel: seq<bool> | |sel| == |ts| ensures Count(sel) == Count(sel[..m]) + InWindow(ts, sel, lo, hi) {
        assert sel[..m] == sel;
        AllTooOld(ts, sel, lo, hi);
      }
    } else {
      m := WindowIsASuffix(Prefix(ts), lo, hi);
      forall sel: seq<bool> | |sel| == |ts| ensures Count(sel) == Count(sel[..m]) + InWindow(ts, sel, lo, hi) {
        assert Prefix(sel)[..m] == sel[..m];
      }
    }
  }

  lemma {:induction false} AllTooOld(ts: seq<int>, sel: seq<bool>, lo: int, hi: int)
    requires |ts| == |sel| && forall k | 0 <= k < |ts| :: ts[k] <= lo
    ensures InWindow(ts, sel, lo, hi) == 0
  {
    if ts != [] {
      AllTooOld(Prefix(ts), Prefix(sel), lo, hi);
    }
  }

  lemma PrefixRespects(limit: int, window: nat, ts: seq<int>, sel: seq<bool>, n: nat)
    requires |ts| == |sel| && n <= |ts| && Respects(limit, window, ts, sel)
    ensures Respects(limit, window, ts[..n], sel[..n])
  {
    forall t: int ensures WindowRespected(limit, window, ts[..n], sel[..n], t) {
      assert WindowRespected(limit, window, ts, sel, t);
      PrefixHoldsFewer(ts, sel, n, t - window, t);
    }
  }

  lemma {:induction false} PrefixHoldsFewer(ts: seq<int>, sel: seq<bool>, n: nat, lo: int, hi: int)
    requires |ts| == |sel| && n <= |ts|
    ensures InWindow(ts[..n], sel[..n], lo, hi) <= InWindow(ts, sel, lo, hi)
  {
    if n == |ts| {
      assert ts[..n] == ts && sel[..n] == sel;
    } else {
      PrefixHoldsFewer(Prefix(ts), Prefix(sel), n, lo, hi);
      assert Prefix(ts)[..n] == ts[..n] && Prefix(sel)[..n] == sel[..n];
    }
  }

  /** On any nondecreasing arrivals, no selection that respects every window admits more. (A window of
      length zero holds nothing, so that a limit of zero then forbids nothing.) */
  lemma {:induction false} GreedyAdmitsMost(limit: int, window: nat, ts: seq<int>, other: seq<bool>)
    requires (window > 0 || limit != 0) && Nondecreasing(ts) && |other| == |ts| && Respects(limit, window, ts, other)
    ensures Count(other) <= Count(Decisions(limit, window, ts))
    decreases |ts|
  {
    if ts != [] {
      var sel := Decisions(limit, window, ts);
      assert Prefix(sel) == Decisions(limit, window, Prefix(ts));
      PrefixRespects(limit, window, ts, other, |ts| - 1);
      GreedyAdmitsMost(limit, window, Prefix(ts), Prefix(other));
      if Last(other) && !Last(sel) {
        var m := FullWindow(limit, window, ts, other, sel);
        PrefixRespects(limit, window, ts, other, m);
        GreedyAdmitsMost(limit, window, ts[..m], other[..m]);
        DecisionsOfPrefix(limit, window, ts, m);
        assert Count(other[..m]) <= Count(sel[..m]);
      }
    }
  }

  /** At every prefix, so the j-th admission comes no later than any other selection's j-th. */
  lemma GreedyLeadsAtEveryPrefix(limit: int, window: nat, ts: seq<int>, other: seq<bool>, n: nat)
    requires (window > 0 || limit != 0) && Nondecreasing(ts) && |other| == |ts| && Respects(limit, window, ts, other)
           && n <= |ts|
    ensures Count(other[..n]) <= Count(Decisions(limit, window, ts)[..n])
  {
    PrefixRespects(limit, window, ts, other, n);
    GreedyAdmitsMost(limit, window, ts[..n], other[..n]);
    DecisionsOfPrefix(limit, window, ts, n);
  }

  lemma {:induction false} EmptyWindow(ts: seq<int>, sel: seq<bool>, t: int)
    requires |ts| == |sel|
    ensures InWindow(ts, sel, t, t) == 0
  {
    if ts != [] {
      EmptyWindow(Prefix(ts), Prefix(sel), t);
    }
  }

  /** Where the greedy rule denies an arrival that `other` picks, its window holds more greedy
      admissions than picks of `other`. */
  lemma FullWindow(limit: int, window: nat, ts: seq<int>, other: seq<bool>, sel: seq<bool>) returns (m: nat)
    requires (window > 0 || limit != 0) && Nondecreasing(ts) && |other| == |ts| == |sel| > 0
    requires WindowRespected(limit, window, ts, other, Last(ts)) && Last(other)
    requires InWindow(Prefix(ts), Prefix(sel), Last(ts) - window, Last(ts)) >= limit
    ensures m < |ts|
    ensures Count(Prefix(other)) - Count(other[..m]) < Count(Prefix(sel)) - Count(sel[..m])
  {
    EmptyWindow(Prefix(ts), Prefix(sel), Last(ts));
    EmptyWindow(ts, other, Last(ts));
    m := WindowIsASuffix(Prefix(ts), Last(ts) - window, Last(ts));
    assert Prefix(other)[..m] == other[..m] && Prefix(sel)[..m] == sel[..m];
    assert Count(Prefix(other))
        == Count(Prefix(other)[..m]) + InWindow(Prefix(ts), Prefix(other), Last(ts) - window, Last(ts));
    assert Count(Prefix(sel))
        == Count(Prefix(sel)[..m]) + InWindow(Prefix(ts), Prefix(sel), Last(ts) - window, Last(ts));
  }

  // ---------------------------------------------------------------------------------------------
  // The sorted set refines the log
  // ---------------------------------------------------------------------------------------------

  /** A member of the set: the arrival time and a random suffix. */
  datatype RequestId = RequestId(at: int, salt: string)

  /** Milliseconds for which an admission keeps the key alive: whole seconds, and one more. */
  function KeyLifetime(window: nat): (ms: int)
    ensures ms % 1000 == 0 && window + 1000 <= ms < window + 2000
  {
    ((window + 999) / 1000 + 1) * 1000
  }

  /** By how much the server's clock may be ahead of the callers': what the key lives longer than the
      window, between one and two seconds. */
  function Slack(window: nat): (ms: int)
    ensures 1000 <= ms < 2000
  {
    KeyLifetime(window) - window
  }

  /** The admissions later than `lo`, by request id. */
  function Stored(ts: seq<int>, sel: seq<bool>, ids: seq<RequestId>, lo: int): map<RequestId, int>
    requires |ts| == |sel| == |ids|
  {
    if ts == [] then map[]
    else
      var older := Stored(Prefix(ts), Prefix(sel), Prefix(ids), lo);
      if Last(sel) && Last(ts) > lo then older[Last(ids) := Last(ts)] else older
  }

  function Pruned(members: map<RequestId, int>, lo: int): map<RequestId, int> {
    map id | id in members && members[id] > lo :: members[id]
  }

  predicate Distinct(ids: seq<RequestId>) {
    forall i, j | 0 <= i < j < |ids| :: ids[i] != ids[j]
  }

  lemma {:induction false} OnlyKnownIds(ts: seq<int>, sel: seq<bool>, ids: seq<RequestId>, lo: int, id: RequestId)
    requires |ts| == |sel| == |ids| && id !in ids
    ensures id !in Stored(ts, sel, ids, lo)
  {
    if ts != [] {
      OnlyKnownIds(Prefix(ts), Prefix(sel), Prefix(ids), lo, id);
    }
  }

  lemma {:induction false} NothingStored(ts: seq<int>, sel: seq<bool>, ids: seq<RequestId>, lo: int)
    requires |ts| == |sel| == |ids| && forall k | 0 <= k < |ts| && sel[k] :: ts[k] <= lo
    ensures Stored(ts, sel, ids, lo) == map[]
  {
    if ts != [] {
      NothingStored(Prefix(ts), Prefix(sel), Prefix(ids), lo);
    }
  }

  lemma {:induction false} PruningKeepsTheRest(ts: seq<int>, sel: seq<bool>, ids: seq<RequestId>, lo: int, lo': int)
    requires |ts| == |sel| == |ids| && lo <= lo' && Distinct(ids)
    ensures Pruned(Stored(ts, sel, ids, lo), lo') == Stored(ts, sel, ids, lo')
  {
    if ts != [] {
      PruningKeepsTheRest(Prefix(ts), Prefix(sel), Prefix(ids), lo, lo');
      LastIdIsNew(ts, sel, ids, lo);
    }
  }

  lemma LastIdIsNew(ts: seq<int>, sel: seq<bool>, ids: seq<RequestId>, lo: int)
    requires |ts| == |sel| == |ids| > 0 && Distinct(ids)
    ensures Last(ids) !in Stored(Prefix(ts), Prefix(sel), Prefix(ids), lo)
  {
    OnlyKnownIds(Prefix(ts), Prefix(sel), Prefix(ids), lo, Last(ids));
  }

  lemma {:induction false} StoredIsCounted(ts: seq<int>, sel: seq<bool>, ids: seq<RequestId>, lo: int, hi: int)
    requires |ts| == |sel| == |ids| && Distinct(ids) && forall k | 0 <= k < |ts| :: ts[k] <= hi
    ensures |Stored(ts, sel, ids, lo)| == InWindow(ts, sel, lo, hi)
  {
    if ts != [] {
      StoredIsCounted(Prefix(ts), Prefix(sel), Prefix(ids), lo, hi);
      LastIdIsNew(ts, sel, ids, lo);
    }
  }

  /** Pruning, or dropping the whole key after its deadline, leaves the admissions of the window. */
  lemma ExpiryLosesNothing(members: map<RequestId, int>, ts: seq<int>, sel: seq<bool>, ids: seq<RequestId>,
                           window: nat, now: int, dropped: bool)
    requires |ts| == |sel| == |ids| > 0 && Distinct(ids) && Last(ts) <= now
    requires Pruned(members, Last(ts) - window) == Stored(ts, sel, ids, Last(ts) - window)
    requires dropped ==> forall k | 0 <= k < |ts| && sel[k] :: ts[k] + window <= now
    ensures Pruned(if dropped then map[] else members, now - window)
         == Stored(ts, sel, ids, now - window)
  {
    if dropped {
      NothingStored(ts, sel, ids, now - window);
    } else {
      PruningKeepsTheRest(ts, sel, ids, Last(ts) - window, now - window);
      assert Pruned(members, now - window) == Pruned(Pruned(members, Last(ts) - window), now - window);
    }
  }

  lemma StoredAfter(ts: seq<int>, sel: seq<bool>, ids: seq<RequestId>, now: int, id: RequestId, allowed: bool,
                    window: nat, members: map<RequestId, int>)
    requires |ts| == |sel| == |ids| && id !in ids
    requires members == if allowed then Stored(ts, sel, ids, now - window)[id := now]
                        else Stored(ts, sel, ids, now - window)
    ensures Pruned(members, now - window) == Stored(ts + [now], sel + [allowed], ids + [id], now - window)
  {
    assert Prefix(ts + [now]) == ts && Prefix(sel + [allowed]) == sel && Prefix(ids + [id]) == ids;
    OnlyKnownIds(ts, sel, ids, now - window, id);
    AllStoredAreLater(ts, sel, ids, now - window);
  }

  lemma {:induction false} AllStoredAreLater(ts: seq<int>, sel: seq<bool>, ids: seq<RequestId>, lo: int)
    requires |ts| == |sel| == |ids|
    ensures forall id | id in Stored(ts, sel, ids, lo) :: Stored(ts, sel, ids, lo)[id] > lo
  {
    if ts != [] {
      AllStoredAreLater(Prefix(ts), Prefix(sel), Prefix(ids), lo);
    }
  }

  /** Pruned to the latest window, the set holds that window's admissions; the deadline outlives
      every admission so far. */
  ghost predicate Represents(limit: int, window: nat, members: map<RequestId, int>, expireAt: Option<int>,
                             ts: seq<int>, ids: seq<RequestId>) {
    var sel := Decisions(limit, window, ts);
    && |ids| == |ts| && Distinct(ids) && Nondecreasing(ts)
    && (ts == [] ==> members == map[])
    && (ts != [] ==> Pruned(members, Last(ts) - window) == Stored(ts, sel, ids, Last(ts) - window))
    && (expireAt.Some? ==> OutlivedBy(window, ts, sel, expireAt.value))
  }

  predicate OutlivedBy(window: nat, ts: seq<int>, sel: seq<bool>, deadline: int)
    requires |ts| == |sel|
  {
    forall k | 0 <= k < |ts| && sel[k] :: ts[k] + KeyLifetime(window) <= deadline
  }

  /** What the script counts is what the log holds in the window. */
  lemma CountIsExact(limit: int, window: nat, members: map<RequestId, int>, expireAt: Option<int>, ts: seq<int>,
                     ids: seq<RequestId>, now: int, dropped: bool)
    requires Represents(limit, window, members, expireAt, ts, ids) && (ts != [] ==> Last(ts) <= now)
    requires dropped ==> expireAt.Some? && expireAt.value <= now + Slack(window)
    ensures Pruned(if dropped then map[] else members, now - window)
           == Stored(ts, Decisions(limit, window, ts), ids, now - window)
    ensures |Stored(ts, Decisions(limit, window, ts), ids, now - window)|
         == InWindow(ts, Decisions(limit, window, ts), now - window, now)
  {
    var sel := Decisions(limit, window, ts);
    if ts != [] {
      ExpiryLosesNothing(members, ts, sel, ids, window, now, dropped);
    }
    StoredIsCounted(ts, sel, ids, now - window, now);
  }

  datatype Answer = Answer(members: map<RequestId, int>, expireAt: Option<int>, allowed: bool, remaining: int)

  /** One run of the script on the key's members and deadline. */
  function Script(limit: int, window: nat, members: map<RequestId, int>, expireAt: Option<int>, now: int,
                  id: RequestId, dropped: bool): Answer {
    var kept := Pruned(if dropped then map[] else members, now - window);
    if |kept| < limit then
      Answer(kept[id := now], Some(now + KeyLifetime(window)), true, limit - |kept| - 1)
    else
      Answer(kept, if dropped || kept == map[] then None else expireAt, false, 0)
  }

  /** On a nondecreasing clock the script decides exactly as the full log does, reports the exact
      remainder, and leaves a key that still represents the log. */
  lemma ScriptIsExact(limit: int, window: nat, members: map<RequestId, int>, expireAt: Option<int>, ts: seq<int>,
                      ids: seq<RequestId>, now: int, id: RequestId, dropped: bool)
    requires Represents(limit, window, members, expireAt, ts, ids) && id !in ids
    requires ts != [] ==> Last(ts) <= now
    requires dropped ==> expireAt.Some? && expireAt.value <= now + Slack(window)
    ensures var a := Script(limit, window, members, expireAt, now, id, dropped);
            var held := InWindow(ts, Decisions(limit, window, ts), now - window, now);
            && (a.allowed <==> held < limit)
            && a.remaining == (if a.allowed then limit - held - 1 else 0)
            && Represents(limit, window, a.members, a.expireAt, ts + [now], ids + [id])
  {
    var sel := Decisions(limit, window, ts);
    var a := Script(limit, window, members, expireAt, now, id, dropped);
    CountIsExact(limit, window, members, expireAt, ts, ids, now, dropped);
    StoredAfter(ts, sel, ids, now, id, a.allowed, window, a.members);
    if a.expireAt.Some? {
      DeadlineOutlives(limit, window, members, expireAt, ts, ids, now, a.expireAt.value, a.allowed);
    }
    LongerIsRepresented(limit, window, a.members, a.expireAt, ts, ids, now, id, a.allowed);
  }

  lemma DeadlineOutlives(limit: int, window: nat, members: map<RequestId, int>, expireAt: Option<int>, ts: seq<int>,
                         ids: seq<RequestId>, now: int, deadline: int, allowed: bool)
    requires Represents(limit, window, members, expireAt, ts, ids) && (ts != [] ==> Last(ts) <= now)
    requires if allowed then deadline == now + KeyLifetime(window) else expireAt == Some(deadline)
    ensures OutlivedBy(window, ts + [now], Decisions(limit, window, ts) + [allowed], deadline)
  {
  }

  lemma LongerIsRepresented(limit: int, window: nat, members: map<RequestId, int>, expireAt: Option<int>, ts: seq<int>,
                            ids: seq<RequestId>, now: int, id: RequestId, allowed: bool)
    requires |ids| == |ts| && Distinct(ids) && Nondecreasing(ts) && id !in ids && (ts != [] ==> Last(ts) <= now)
    requires allowed == (InWindow(ts, Decisions(limit, window, ts), now - window, now) < limit)
    requires Pruned(members, now - window)
           == Stored(ts + [now], Decisions(limit, window, ts) + [allowed], ids + [id], now - window)
    requires expireAt.Some? ==> OutlivedBy(window, ts + [now], Decisions(limit, window, ts) + [allowed], expireAt.value)
    ensures Represents(limit, window, members, expireAt, ts + [now], ids + [id])
  {
    DecisionsOfLonger(limit, window, ts, now);
    LongerStaysOrdered(ts, ids, now, id);
  }

  lemma LongerStaysOrdered(ts: seq<int>, ids: seq<RequestId>, now: int, id: RequestId)
    requires Distinct(ids) && id !in ids && Nondecreasing(ts) && (ts != [] ==> Last(ts) <= now)
    ensures Distinct(ids + [id]) && Nondecreasing(ts + [now])
  {
  }

  /** The script's answers are exact though the server drops keys up to `early` before their deadline. */
  ghost predicate ExactUnderEarlyDrops(limit: int, window: nat, early: int) {
    forall members, expireAt: Option<int>, ts: seq<int>, ids, now, id |
      && Represents(limit, window, members, expireAt, ts, ids) && (ts != [] ==> Last(ts) <= now) && id !in ids
      && expireAt.Some? && expireAt.value <= now + early ::
      DecidesExactly(limit, window, members, expireAt, ts, now, id)
  }

  predicate DecidesExactly(limit: int, window: nat, members: map<RequestId, int>, expireAt: Option<int>, ts: seq<int>,
                           now: int, id: RequestId) {
    Script(limit, window, members, expireAt, now, id, true).allowed
    <==> InWindow(ts, Decisions(limit, window, ts), now - window, now) < limit
  }

  /** Exactly the script's extra seconds may be missing. */
  lemma EarlyDropsAreHarmlessExactly(limit: int, window: nat, early: int)
    requires limit >= 1 && window >= 1
    ensures ExactUnderEarlyDrops(limit, window, early) <==> early <= Slack(window)
  {
    if early <= Slack(window) {
      forall members, expireAt: Option<int>, ts: seq<int>, ids, now, id |
        && Represents(limit, window, members, expireAt, ts, ids) && (ts != [] ==> Last(ts) <= now) && id !in ids
        && expireAt.Some? && expireAt.value <= now + early
        ensures DecidesExactly(limit, window, members, expireAt, ts, now, id)
      {
        ScriptIsExact(limit, window, members, expireAt, ts, ids, now, id, true);
      }
    } else {
      TooEarlyADrop(limit, window, early);
    }
  }

  predicate Zeros(ts: seq<int>) {
    forall k | 0 <= k < |ts| :: ts[k] == 0
  }

  lemma {:induction false} InWindowOfZeros(ts: seq<int>, sel: seq<bool>, lo: int, hi: int)
    requires |ts| == |sel| && Zeros(ts) && lo < 0 <= hi
    ensures InWindow(ts, sel, lo, hi) == Count(sel) <= |sel|
  {
    if ts != [] {
      InWindowOfZeros(Prefix(ts), Prefix(sel), lo, hi);
    }
  }

  /** Up to `limit` arrivals at time zero are all admitted. */
  lemma {:induction false} ZerosAreCounted(limit: int, window: nat, ts: seq<int>)
    requires Zeros(ts) && |ts| <= limit && window >= 1
    ensures Count(Decisions(limit, window, ts)) == |ts|
  {
    if ts != [] {
      var sel := Decisions(limit, window, Prefix(ts));
      ZerosAreCounted(limit, window, Prefix(ts));
      InWindowOfZeros(Prefix(ts), sel, 0 - window, 0);
      assert Prefix(Decisions(limit, window, ts)) == sel;
    }
  }

  lemma ZerosAreAdmitted(limit: int, window: nat, ts: seq<int>, lo: int, hi: int)
    requires Zeros(ts) && |ts| <= limit && window >= 1 && lo < 0 <= hi
    ensures InWindow(ts, Decisions(limit, window, ts), lo, hi) == |ts|
  {
    ZerosAreCounted(limit, window, ts);
    InWindowOfZeros(ts, Decisions(limit, window, ts), lo, hi);
  }

  /** The key holds `n` admissions, all at time zero. */
  ghost predicate FullKey(limit: int, window: nat, n: nat, members: map<RequestId, int>, expireAt: Option<int>,
                          ts: seq<int>, ids: seq<RequestId>) {
    && |ts| == n && Zeros(ts) && ShortSalts(ids, n)
    && Represents(limit, window, members, expireAt, ts, ids) && (n > 0 ==> expireAt == Some(KeyLifetime(window)))
  }

  predicate ShortSalts(ids: seq<RequestId>, n: nat) {
    forall id | id in ids :: |id.salt| < n
  }

  lemma OneMoreInKey(limit: int, window: nat, members: map<RequestId, int>, expireAt: Option<int>, ts: seq<int>,
                     ids: seq<RequestId>, id: RequestId)
    requires window >= 1 && |ts| < limit && Zeros(ts) && id !in ids
    requires Represents(limit, window, members, expireAt, ts, ids)
    ensures var a := Script(limit, window, members, expireAt, 0, id, false);
            && Represents(limit, window, a.members, a.expireAt, ts + [0], ids + [id])
            && a.expireAt == Some(KeyLifetime(window))
  {
    ZerosAreAdmitted(limit, window, ts, 0 - window, 0);
    ScriptIsExact(limit, window, members, expireAt, ts, ids, 0, id, false);
  }

  lemma LongerZeros(ts: seq<int>, ids: seq<RequestId>, n: nat, id: RequestId)
    requires Zeros(ts) && ShortSalts(ids, n) && |id.salt| == n
    ensures id !in ids && Zeros(ts + [0]) && ShortSalts(ids + [id], n + 1)
  {
  }

  lemma {:induction false} FillKey(limit: int, window: nat, n: nat)
    returns (members: map<RequestId, int>, expireAt: Option<int>, ts: seq<int>, ids: seq<RequestId>)
    requires window >= 1 && n <= limit
    ensures FullKey(limit, window, n, members, expireAt, ts, ids)
  {
    if n == 0 {
      members, expireAt, ts, ids := map[], None, [], [];
    } else {
      members, expireAt, ts, ids := FillKey(limit, window, n - 1);
      var id := RequestId(0, Salt(n - 1));
      LongerZeros(ts, ids, n - 1, id);
      OneMoreInKey(limit, window, members, expireAt, ts, ids, id);
      var a := Script(limit, window, members, expireAt, 0, id, false);
      members, expireAt, ts, ids := a.members, a.expireAt, ts + [0], ids + [id];
    }
  }

  function Salt(n: nat): (s: string)
    ensures |s| == n
  {
    seq(n, _ => 'x')
  }

  lemma TooEarlyADrop(limit: int, window: nat, early: int)
    requires limit >= 1 && window >= 1 && early > Slack(window)
    ensures !ExactUnderEarlyDrops(limit, window, early)
  {
    var members, expireAt, ts, ids := FillKey(limit, window, limit);
    var now, id := window - 1, RequestId(0, Salt(limit));
    ZerosAreAdmitted(limit, window, ts, now - window, now);
    assert !DecidesExactly(limit, window, members, expireAt, ts, now, id);
  }

  /** A sorted set in Redis and its deadline; no key is an empty set without one. */
  datatype Key = Key(members: map<RequestId, int>, expireAt: Option<int>)

  /** All arrivals for one entity, admitted or not. */
  datatype Log = Log(arrivals: seq<int>, ids: seq<RequestId>)

  function KeyOf(keys: map<string, Key>, id: string): Key {
    if id in keys then keys[id] else Key(map[], None)
  }

  function LogOf(logs: map<string, Log>, id: string): Log {
    if id in logs then logs[id] else Log([], [])
  }

  /** Admissions of the log in the window that ends at `now`. */
  function Held(limit: int, window: nat, log: Log, now: int): nat {
    InWindow(log.arrivals, Decisions(limit, window, log.arrivals), now - window, now)
  }

  ghost predicate KeyIsExact(limit: int, window: nat, key: Key, log: Log) {
    Represents(limit, window, key.members, key.expireAt, log.arrivals, log.ids)
  }

  ghost predicate AllExact(limit: int, window: nat, keys: map<string, Key>, logs: map<string, Log>) {
    forall id :: KeyIsExact(limit, window, KeyOf(keys, id), LogOf(logs, id))
  }

  lemma KeysStayExact(limit: int, window: nat, keys: map<string, Key>, keys': map<string, Key>, logs: map<string, Log>,
                      id: string, log: Log)
    requires AllExact(limit, window, keys, logs) && KeyIsExact(limit, window, KeyOf(keys', id), log)
    requires forall other | other != id :: KeyOf(keys', other) == KeyOf(keys, other)
    ensures AllExact(limit, window, keys', logs[id := log])
  {
    forall other ensures KeyIsExact(limit, window, KeyOf(keys', other), LogOf(logs[id := log], other)) {
      if other != id {
        assert KeyIsExact(limit, window, KeyOf(keys, other), LogOf(logs, other));
      }
    }
  }

  /** The script on one entity's key, which stands for the entity's log. */
  lemma OneRequest(limit: int, window: nat, keys: map<string, Key>, logs: map<string, Log>, id: string,
                   now: int, requestId: RequestId, dropped: bool)
    requires AllExact(limit, window, keys, logs) && requestId !in LogOf(logs, id).ids
    requires LogOf(logs, id).arrivals != [] ==> Last(LogOf(logs, id).arrivals) <= now
    requires dropped ==> KeyOf(keys, id).expireAt.Some? && KeyOf(keys, id).expireAt.value <= now + Slack(window)
    ensures var log := LogOf(logs, id);
            var a := Script(limit, window, KeyOf(keys, id).members, KeyOf(keys, id).expireAt, now, requestId, dropped);
            && (a.allowed <==> Held(limit, window, log, now) < limit)
            && a.remaining == (if a.allowed then limit - Held(limit, window, log, now) - 1 else 0)
            && KeyIsExact(limit, window, Key(a.members, a.expireAt), Log(log.arrivals + [now], log.ids + [requestId]))
  {
    var key, log := KeyOf(keys, id), LogOf(logs, id);
    assert KeyIsExact(limit, window, key, log);
    ScriptIsExact(limit, window, key.members, key.expireAt, log.arrivals, log.ids, now, requestId, dropped);
  }

  /** The script's answer and what it leaves of the keys stand for the longer log. */
  lemma ServedRequest(limit: int, window: nat, keys: map<string, Key>, keys': map<string, Key>, logs: map<string, Log>,
                      id: string, now: int, requestId: RequestId, dropped: bool, a: Answer)
    requires AllExact(limit, window, keys, logs) && requestId !in LogOf(logs, id).ids
    requires LogOf(logs, id).arrivals != [] ==> Last(LogOf(logs, id).arrivals) <= now
    requires dropped ==> KeyOf(keys, id).expireAt.Some? && KeyOf(keys, id).expireAt.value <= now + Slack(window)
    requires a == Script(limit, window, KeyOf(keys, id).members, KeyOf(keys, id).expireAt, now, requestId, dropped)
    requires KeyOf(keys', id) == Key(a.members, a.expireAt)
    requires forall other | other != id :: KeyOf(keys', other) == KeyOf(keys, other)
    ensures a.allowed <==> Held(limit, window, LogOf(logs, id), now) < limit
    ensures a.remaining == if a.allowed then limit - Held(limit, window, LogOf(logs, id), now) - 1 else 0
    ensures AllExact(limit, window, keys', logs[id := Longer(LogOf(logs, id), now, requestId)])
  {
    OneRequest(limit, window, keys, logs, id, now, requestId, dropped);
    KeysStayExact(limit, window, keys, keys', logs, id, Longer(LogOf(logs, id), now, requestId));
  }

  function Longer(log: Log, now: int, requestId: RequestId): Log {
    Log(log.arrivals + [now], log.ids + [requestId])
  }

  datatype ThrottleResult = ThrottleResult(allowed: bool, remaining: int, resetAt: int)

  class SlidingWindowStrategy {
    var keys: map<string, Key>
    const limit: int
    const windowMs: nat

    ghost var logs: map<string, Log>

    ghost predicate Valid()
      reads this
    {
      AllExact(limit, windowMs, keys, logs)
    }

    constructor (limit: int, windowMs: nat)
      ensures Valid() && this.limit == limit && this.windowMs == windowMs && logs == map[]
    {
      this.limit, this.windowMs := limit, windowMs;
      keys, logs := map[], map[];
    }

    /** The Lua script, run when the server may have dropped the key. */
    method RunScript(id: string, now: int, requestId: RequestId, dropped: bool) returns (allowed: bool, remaining: int)
      modifies `keys
      ensures var key, key' := KeyOf(old(keys), id), KeyOf(keys, id);
              Answer(key'.members, key'.expireAt, allowed, remaining)
              == Script(limit, windowMs, key.members, key.expireAt, now, requestId, dropped)
      ensures forall other | other != id :: KeyOf(keys, other) == KeyOf(old(keys), other)
    {
      var key := if dropped then Key(map[], None) else KeyOf(keys, id);
      key := key.(members := Pruned(key.members, now - windowMs));
      if key.members == map[] {
        key := key.(expireAt := None);
      }
      var count := |key.members|;
      if count < limit {
        keys := keys[id := Key(key.members[requestId := now], Some(now + KeyLifetime(windowMs)))];
        return true, limit - count - 1;
      } else {
        keys := keys[id := key];
        return false, 0;
      }
    }

    /** A request for `id` at time `now`. `dropped`: the server has removed the key, which it may do at
        any time from the key's deadline on, on a clock that may be ahead by the slack. */
    method Consume(id: string, now: int, requestId: RequestId, dropped: bool) returns (r: ThrottleResult)
      requires Valid() && requestId !in LogOf(logs, id).ids
      requires LogOf(logs, id).arrivals != [] ==> Last(LogOf(logs, id).arrivals) <= now
      requires dropped ==> KeyOf(keys, id).expireAt.Some? && KeyOf(keys, id).expireAt.value <= now + Slack(windowMs)
      modifies this
      ensures Valid()
      ensures LogOf(logs, id) == Longer(LogOf(old(logs), id), now, requestId)
      ensures forall other | other != id :: LogOf(logs, other) == LogOf(old(logs), other)
      ensures var held := Held(limit, windowMs, LogOf(old(logs), id), now);
              && (r.allowed <==> held < limit)
              && r.remaining == (if r.allowed then limit - held - 1 else 0)
              && r.resetAt == now + windowMs
    {
      var resetAt := now + windowMs;
      var allowed, remaining := RunScript(id, now, requestId, dropped);
      ServedRequest(limit, windowMs, old(keys), keys, logs, id, now, requestId, dropped,
                    Answer(KeyOf(keys, id).members, KeyOf(keys, id).expireAt, allowed, remaining));
      logs := logs[id := Longer(LogOf(logs, id), now, requestId)];
      return ThrottleResult(allowed, remaining, resetAt);
    }
  }
}
