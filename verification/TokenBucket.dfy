/**
 One entity's token bucket, as every in-memory and Redis store of the system runs it, and what
 its decisions mean over whole runs.
 */
module TokenBucket {
  import opened Numbers
  import opened Sequences

  /** When a sweep drops an idle entry: the Go store keeps an entry idle for exactly the time to
      live, the TypeScript store drops it; `Never` is the reference store without eviction. */
  datatype Eviction = Never | IdleOver | IdleAtLeast

  /** `clamped`: negative elapsed time counts as zero (TypeScript and the Lua script). */
  datatype Params = Params(rate: real, clamped: bool, eviction: Eviction)

  datatype Entry = Entry(tokens: real, lastRefill: real)

  type Slot = Option<Entry>

  datatype Event =
    | Call(now: real, cost: int, limit: int)
    | Merge(level: real)
    | Sweep(now: real)

  /** One hour, in milliseconds. */
  const TTL := 3600000.0

  function Elapsed(p: Params, since: real, now: real): real {
    if p.clamped && now < since then 0.0 else now - since
  }

  /** Tokens available to a call, after the refill and before the charge. */
  function Level(p: Params, slot: Slot, now: real, limit: int): real {
    match slot
    case None => limit as real
    case Some(e) => Min(limit as real, e.tokens + Earned(p.rate, Elapsed(p, e.lastRefill, now)))
  }

  predicate Admits(p: Params, slot: Slot, now: real, cost: int, limit: int) {
    Level(p, slot, now, limit) >= cost as real
  }

  predicate Stale(p: Params, e: Entry, now: real) {
    match p.eviction
    case Never => false
    case IdleOver => e.lastRefill < now - TTL
    case IdleAtLeast => e.lastRefill <= now - TTL
  }

  /** The Go store drops what has been idle for more than an hour, the TypeScript store for an hour. */
  lemma StaleAfterAnHour(p: Params, e: Entry, now: real)
    ensures p.eviction.IdleOver? ==> (Stale(p, e, now) <==> now - e.lastRefill > 3600000.0)
    ensures p.eviction.IdleAtLeast? ==> (Stale(p, e, now) <==> now - e.lastRefill >= 3600000.0)
  {
  }

  function Charge(p: Params, slot: Slot, ev: Event): int {
    if ev.Call? && Admits(p, slot, ev.now, ev.cost, ev.limit) then ev.cost else 0
  }

  function Step(p: Params, slot: Slot, ev: Event): Slot {
    match ev
    case Call(now, cost, limit) =>
      Some(Entry(Level(p, slot, now, limit) - Charge(p, slot, ev) as real, now))
    case Merge(level) =>
      if slot.None? then None else Some(slot.value.(tokens := Min(slot.value.tokens, level)))
    case Sweep(now) =>
      if slot.Some? && Stale(p, slot.value, now) then None else slot
  }

  /** The slot after a run that starts with no entry. */
  function Run(p: Params, tr: seq<Event>): Slot {
    if tr == [] then None else Step(p, Run(p, Prefix(tr)), Last(tr))
  }

  /** Total cost admitted by the events `tr[i..]` of the run `tr`. */
  function Spent(p: Params, tr: seq<Event>, i: nat): int
    requires i <= |tr|
  {
    if i == |tr| then 0 else Spent(p, Prefix(tr), i) + Charge(p, Run(p, Prefix(tr)), Last(tr))
  }

  lemma {:induction false} SpentSplits(p: Params, tr: seq<Event>, i: nat)
    requires i <= |tr|
    ensures Spent(p, tr, 0) == Spent(p, tr[..i], 0) + Spent(p, tr, i)
    decreases |tr|
  {
    if i == |tr| {
      assert tr[..i] == tr;
    } else {
      SpentSplits(p, Prefix(tr), i);
      assert Prefix(tr)[..i] == tr[..i];
    }
  }

  // ---------------------------------------------------------------------------------------------
  // Exact characterisation: the bucket is the lower envelope of one line per earlier event
  // ---------------------------------------------------------------------------------------------

  predicate Started(tr: seq<Event>) {
    exists k :: 0 <= k < |tr| && tr[k].Call?
  }

  /** Time of the latest call: the bucket's last refill. */
  function LastCall(tr: seq<Event>): real {
    if tr == [] then 0.0 else if Last(tr).Call? then Last(tr).now else LastCall(Prefix(tr))
  }

  /** A call always draws a line; a merge does when the entity is already stored. */
  predicate Draws(tr: seq<Event>, i: nat)
    requires i < |tr|
  {
    tr[i].Call? || (tr[i].Merge? && Started(tr[..i]))
  }

  function Height(ev: Event): real
    requires !ev.Sweep?
  {
    if ev.Call? then ev.limit as real else ev.level
  }

  /** Refill time that the bucket counts from event `i` to the latest call: a clamped bucket counts
      the forward steps of the clock only. */
  function Counted(p: Params, tr: seq<Event>, i: nat): real
    requires i < |tr|
    decreases |tr|
  {
    if i == |tr| - 1 then 0.0
    else Counted(p, Prefix(tr), i)
         + if Last(tr).Call? then Elapsed(p, LastCall(Prefix(tr)), Last(tr).now) else 0.0
  }

  /** What event `i` still allows at the latest call: its level, plus what was earned since, minus
      what was admitted since. */
  function Line(p: Params, tr: seq<Event>, i: nat): real
    requires i < |tr| && !tr[i].Sweep?
  {
    Height(tr[i]) + Earned(p.rate, Counted(p, tr, i)) - Spent(p, tr, i) as real
  }

  predicate Bounded(p: Params, tr: seq<Event>, x: real) {
    forall i: nat | i < |tr| && Draws(tr, i) :: x <= Line(p, tr, i)
  }

  predicate Attained(p: Params, tr: seq<Event>, x: real) {
    exists i: nat :: i < |tr| && Draws(tr, i) && x == Line(p, tr, i)
  }

  /** One more event moves every earlier line by what it earns and by what it charges. */
  lemma LineStep(p: Params, tr: seq<Event>, i: nat)
    requires i < |tr| - 1 && !tr[i].Sweep?
    ensures Draws(tr, i) == Draws(Prefix(tr), i)
    ensures Line(p, tr, i)
         == Line(p, Prefix(tr), i) - Charge(p, Run(p, Prefix(tr)), Last(tr)) as real
            + if Last(tr).Call? then Earned(p.rate, Elapsed(p, LastCall(Prefix(tr)), Last(tr).now)) else 0.0
  {
    assert tr[..i] == Prefix(tr)[..i];
    if Last(tr).Call? {
      EarnedSum(p.rate, Counted(p, Prefix(tr), i), Elapsed(p, LastCall(Prefix(tr)), Last(tr).now));
    }
  }

  /** The line that the latest event draws. */
  lemma NewLine(p: Params, tr: seq<Event>)
    requires tr != [] && !Last(tr).Sweep?
    ensures Line(p, tr, |tr| - 1) == Height(Last(tr)) - Charge(p, Run(p, Prefix(tr)), Last(tr)) as real
  {
    EarnedSum(p.rate, 0.0, 0.0);
    assert Spent(p, Prefix(tr), |tr| - 1) == 0;
  }

  ghost predicate Envelope(p: Params, tr: seq<Event>) {
    && (Run(p, tr).Some? <==> Started(tr))
    && (Run(p, tr).Some? ==>
        var e := Run(p, tr).value;
        e.lastRefill == LastCall(tr) && Bounded(p, tr, e.tokens) && Attained(p, tr, e.tokens))
  }

  /** Under any clock, the tokens are the lowest of the lines drawn so far. */
  lemma {:induction false} TokensAreTheEnvelope(p: Params, tr: seq<Event>)
    requires p.eviction.Never?
    ensures Envelope(p, tr)
  {
    if tr != [] {
      TokensAreTheEnvelope(p, Prefix(tr));
      match Last(tr)
      case Call(_, _, _) => EnvelopeAfterCall(p, tr);
      case Merge(_) => EnvelopeAfterMerge(p, tr);
      case Sweep(_) => EnvelopeAfterSweep(p, tr);
    }
  }

  lemma EnvelopeAfterCall(p: Params, tr: seq<Event>)
    requires p.eviction.Never? && tr != [] && Last(tr).Call? && Envelope(p, Prefix(tr))
    ensures Envelope(p, tr)
  {
    var pre, ev, n := Prefix(tr), Last(tr), |tr| - 1;
    var earned := Earned(p.rate, Elapsed(p, LastCall(pre), ev.now));
    var charge := Charge(p, Run(p, pre), ev) as real;
    assert tr[n].Call?;
    NewLine(p, tr);
    forall i: nat | i < n && Draws(tr, i)
      ensures Started(pre) && Draws(pre, i) && Line(p, tr, i) == Line(p, pre, i) + earned - charge
    {
      LineStep(p, tr, i);
      DrawsOnlyOnceStarted(pre, i);
    }
    var t := Run(p, tr).value.tokens;
    if Started(pre) {
      var e := Run(p, pre).value;
      var w: nat :| w < |pre| && Draws(pre, w) && e.tokens == Line(p, pre, w);
      LineStep(p, tr, w);
      assert Draws(tr, w);
      assert t == Line(p, tr, n) || t == Line(p, tr, w);
    } else {
      assert t == Line(p, tr, n);
    }
  }

  lemma EnvelopeAfterMerge(p: Params, tr: seq<Event>)
    requires p.eviction.Never? && tr != [] && Last(tr).Merge? && Envelope(p, Prefix(tr))
    ensures Envelope(p, tr)
  {
    var pre, n := Prefix(tr), |tr| - 1;
    StartedPrefix(tr);
    if Started(pre) {
      NewLine(p, tr);
      assert tr[..n] == pre && Draws(tr, n);
      OldLinesStay(p, tr);
      var w: nat :| w < |pre| && Draws(pre, w) && Run(p, pre).value.tokens == Line(p, pre, w);
      LineStep(p, tr, w);
      assert Draws(tr, w);
      var t := Run(p, tr).value.tokens;
      assert t == Line(p, tr, n) || t == Line(p, tr, w);
    }
  }

  lemma EnvelopeAfterSweep(p: Params, tr: seq<Event>)
    requires p.eviction.Never? && tr != [] && Last(tr).Sweep? && Envelope(p, Prefix(tr))
    ensures Envelope(p, tr)
  {
    var pre := Prefix(tr);
    StartedPrefix(tr);
    if Started(pre) {
      OldLinesStay(p, tr);
      var w: nat :| w < |pre| && Draws(pre, w) && Run(p, pre).value.tokens == Line(p, pre, w);
      LineStep(p, tr, w);
      assert Draws(tr, w);
    }
  }

  lemma OldLinesStay(p: Params, tr: seq<Event>)
    requires tr != [] && !Last(tr).Call?
    ensures forall i: nat | i < |tr| - 1 && Draws(tr, i) ::
              Draws(Prefix(tr), i) && Line(p, tr, i) == Line(p, Prefix(tr), i)
  {
    forall i: nat | i < |tr| - 1 && Draws(tr, i)
      ensures Draws(Prefix(tr), i) && Line(p, tr, i) == Line(p, Prefix(tr), i)
    {
      LineStep(p, tr, i);
    }
  }

  lemma StartedPrefix(tr: seq<Event>)
    requires tr != [] && !Last(tr).Call?
    ensures Started(tr) == Started(Prefix(tr))
  {
    if Started(tr) {
      var k :| 0 <= k < |tr| && tr[k].Call?;
      assert Prefix(tr)[k].Call?;
    }
    if Started(Prefix(tr)) {
      var k :| 0 <= k < |Prefix(tr)| && Prefix(tr)[k].Call?;
      assert tr[k].Call?;
    }
  }

  lemma DrawsOnlyOnceStarted(tr: seq<Event>, i: nat)
    requires i < |tr| && Draws(tr, i)
    ensures Started(tr)
  {
    if tr[i].Merge? {
      var k :| 0 <= k < i && tr[..i][k].Call?;
      assert tr[k].Call?;
    }
  }

  /** `spent` stays within a line that starts at `height`, `time` later. */
  predicate Fits(rate: real, height: real, time: real, spent: int) {
    spent as real <= height + Earned(rate, time)
  }

  function CountedUntil(p: Params, tr: seq<Event>, i: nat, now: real): real
    requires i < |tr|
  {
    Counted(p, tr, i) + Elapsed(p, LastCall(tr), now)
  }

  /** Adding `cost` at `now` to what was admitted since event `i` stays within that event's line. */
  predicate SuffixFits(p: Params, tr: seq<Event>, i: nat, now: real, cost: int)
    requires i < |tr| && !tr[i].Sweep?
  {
    Fits(p.rate, Height(tr[i]), CountedUntil(p, tr, i, now), Spent(p, tr, i) + cost)
  }

  ghost predicate EverySuffixFits(p: Params, tr: seq<Event>, now: real, cost: int) {
    forall i: nat | i < |tr| && Draws(tr, i) :: SuffixFits(p, tr, i, now, cost)
  }

  lemma SuffixFitsIffBelowLine(p: Params, tr: seq<Event>, i: nat, now: real, cost: int)
    requires i < |tr| && !tr[i].Sweep?
    ensures SuffixFits(p, tr, i, now, cost)
       <==> cost as real <= Line(p, tr, i) + Earned(p.rate, Elapsed(p, LastCall(tr), now))
  {
    FitsLater(p.rate, Height(tr[i]), Counted(p, tr, i), Elapsed(p, LastCall(tr), now), CountedUntil(p, tr, i, now),
              Spent(p, tr, i), cost);
  }

  lemma FitsLater(rate: real, height: real, time: real, more: real, until: real, spent: int, cost: int)
    requires until == time + more
    ensures Fits(rate, height, until, spent + cost)
       <==> cost as real <= height + Earned(rate, time) - spent as real + Earned(rate, more)
  {
    EarnedSum(rate, time, more);
  }

  /** Under any clock, a request is admitted if and only if it fits its own limit and every suffix of
      the run, the request included, stays within the line its first event drew. */
  lemma AdmittedIffEverySuffixFits(p: Params, tr: seq<Event>, now: real, cost: int, limit: int)
    requires p.eviction.Never?
    ensures Admits(p, Run(p, tr), now, cost, limit) <==> cost <= limit && EverySuffixFits(p, tr, now, cost)
  {
    TokensAreTheEnvelope(p, tr);
    if Run(p, tr).Some? {
      var earned := Earned(p.rate, Elapsed(p, LastCall(tr), now));
      forall i: nat | i < |tr| && Draws(tr, i)
        ensures SuffixFits(p, tr, i, now, cost) <==> cost as real <= Line(p, tr, i) + earned
      {
        SuffixFitsIffBelowLine(p, tr, i, now, cost);
      }
    } else {
      forall i: nat | i < |tr| ensures !Draws(tr, i) {
        if Draws(tr, i) {
          DrawsOnlyOnceStarted(tr, i);
        }
      }
    }
  }

  // ---------------------------------------------------------------------------------------------
  // On a monotone clock, and for a bucket that does not clamp, the time counted is the time elapsed
  // ---------------------------------------------------------------------------------------------

  predicate MonotoneCalls(tr: seq<Event>) {
    forall i, j | 0 <= i < j < |tr| && tr[i].Call? && tr[j].Call? :: tr[i].now <= tr[j].now
  }

  lemma {:induction false} LastCallIsACall(tr: seq<Event>)
    requires Started(tr)
    ensures exists k :: 0 <= k < |tr| && tr[k].Call? && tr[k].now == LastCall(tr)
  {
    if !Last(tr).Call? {
      var k :| 0 <= k < |tr| && tr[k].Call?;
      assert Prefix(tr)[k].Call?;
      LastCallIsACall(Prefix(tr));
      var j :| 0 <= j < |Prefix(tr)| && Prefix(tr)[j].Call? && Prefix(tr)[j].now == LastCall(Prefix(tr));
      assert tr[j].Call?;
    }
  }

  lemma ElapsedSinceLastCall(p: Params, tr: seq<Event>)
    requires tr != [] && Started(Prefix(tr)) && Last(tr).Call?
    requires p.clamped ==> MonotoneCalls(tr)
    ensures Elapsed(p, LastCall(Prefix(tr)), Last(tr).now) == Last(tr).now - LastCall(Prefix(tr))
  {
    LastCallIsACall(Prefix(tr));
    var k :| 0 <= k < |tr| - 1 && tr[k].Call? && tr[k].now == LastCall(Prefix(tr));
  }

  lemma {:induction false} CountedIsElapsed(p: Params, tr: seq<Event>, i: nat)
    requires i < |tr| && Draws(tr, i)
    requires p.clamped ==> MonotoneCalls(tr)
    ensures Counted(p, tr, i) == LastCall(tr) - LastCall(tr[..i + 1])
    decreases |tr|
  {
    if i == |tr| - 1 {
      assert tr[..i + 1] == tr;
    } else {
      assert tr[..i + 1] == Prefix(tr)[..i + 1] && tr[..i] == Prefix(tr)[..i];
      CountedIsElapsed(p, Prefix(tr), i);
      DrawsOnlyOnceStarted(Prefix(tr), i);
      if Last(tr).Call? {
        ElapsedSinceLastCall(p, tr);
      }
    }
  }

  lemma TimeCounted(p: Params, tr: seq<Event>, i: nat, call: Event)
    requires i < |tr| && Draws(tr, i) && call.Call?
    requires p.clamped ==> MonotoneCalls(tr + [call])
    ensures CountedUntil(p, tr, i, call.now) == call.now - LastCall(tr[..i + 1])
  {
    var longer := tr + [call];
    assert Prefix(longer) == tr && forall k | 0 <= k < |tr| :: longer[k] == tr[k];
    DrawsOnlyOnceStarted(tr, i);
    ElapsedSinceLastCall(p, longer);
    CountedIsElapsed(p, tr, i);
  }

  /** The suffix rule on a monotone clock: a window from event `i` to `now`. */
  lemma SuffixIsAWindow(p: Params, tr: seq<Event>, i: nat, now: real, cost: int, limit: int)
    requires i < |tr| && Draws(tr, i)
    requires p.clamped ==> MonotoneCalls(tr + [Call(now, cost, limit)])
    ensures SuffixFits(p, tr, i, now, cost)
       <==> Fits(p.rate, Height(tr[i]), now - LastCall(tr[..i + 1]), Spent(p, tr, i) + cost)
  {
    TimeCounted(p, tr, i, Call(now, cost, limit));
    SameTimeFits(p, tr, i, now, cost, now - LastCall(tr[..i + 1]));
  }

  lemma SameTimeFits(p: Params, tr: seq<Event>, i: nat, now: real, cost: int, time: real)
    requires i < |tr| && !tr[i].Sweep? && CountedUntil(p, tr, i, now) == time
    ensures SuffixFits(p, tr, i, now, cost) <==> Fits(p.rate, Height(tr[i]), time, Spent(p, tr, i) + cost)
  {
  }
}
