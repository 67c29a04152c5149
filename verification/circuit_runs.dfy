/** One circuit over whole runs: calls ask and tell in any order, late answers included, on a monotone clock. */
module CircuitRuns {
  import opened Common
  import opened Circuits

  datatype Event = Asked(now: real) | Told(now: real, ok: bool)

  function Step(cfg: Config, c: Circuit, e: Event): Circuit {
    match e
    case Asked(now) => Ask(cfg, c, now).0
    case Told(now, ok) => Tell(cfg, c, now, ok)
  }

  function Run(cfg: Config, events: seq<Event>): Circuit {
    if events == [] then CLOSED else Step(cfg, Run(cfg, events[..|events| - 1]), events[|events| - 1])
  }

  predicate Monotone(events: seq<Event>) {
    forall i, j | 0 <= i <= j < |events| :: events[i].now <= events[j].now
  }

  /** The call made at event j is let through. */
  predicate Granted(cfg: Config, events: seq<Event>, j: nat)
    requires j < |events|
  {
    events[j].Asked? && Ask(cfg, Run(cfg, events[..j]), events[j].now).1
  }

  lemma RunNext(cfg: Config, events: seq<Event>, i: nat)
    requires i < |events|
    ensures Run(cfg, events[..i + 1]) == Step(cfg, Run(cfg, events[..i]), events[i])
  {
    assert events[..i + 1][..i] == events[..i];
  }

  // ---------- the kept samples are the recent part of the whole history ----------

  function History(events: seq<Event>): seq<Sample> {
    if events == [] then []
    else
      var last := events[|events| - 1];
      History(events[..|events| - 1]) + if last.Told? then [Sample(last.now, last.ok)] else []
  }

  function Recent(samples: seq<Sample>, cutoff: real): seq<Sample> {
    if samples == [] then []
    else
      var last := samples[|samples| - 1];
      Recent(samples[..|samples| - 1], cutoff) + if last.at < cutoff then [] else [last]
  }

  predicate Sorted(samples: seq<Sample>) {
    forall i, j | 0 <= i <= j < |samples| :: samples[i].at <= samples[j].at
  }

  lemma {:induction false} HistorySorted(events: seq<Event>)
    requires Monotone(events)
    ensures Sorted(History(events))
    ensures forall x | x in History(events) :: events != [] && x.at <= events[|events| - 1].now
  {
    if events != [] {
      HistorySorted(events[..|events| - 1]);
    }
  }

  lemma {:induction false} RecentCut(samples: seq<Sample>, k: nat, cutoff: real)
    requires k <= |samples|
    requires forall i | 0 <= i < k :: samples[i].at < cutoff
    requires forall i | k <= i < |samples| :: samples[i].at >= cutoff
    ensures Recent(samples, cutoff) == samples[k..]
  {
    if samples != [] {
      var n := |samples| - 1;
      if k <= n {
        RecentCut(samples[..n], k, cutoff);
        assert samples[k..] == samples[..n][k..] + [samples[n]];
      } else {
        RecentCut(samples[..n], n, cutoff);
      }
    }
  }

  lemma {:induction false} PrunedCut(samples: seq<Sample>, cutoff: real) returns (k: nat)
    requires Sorted(samples)
    ensures k <= |samples| && Pruned(samples, cutoff) == samples[k..]
    ensures forall i | 0 <= i < k :: samples[i].at < cutoff
    ensures forall i | k <= i < |samples| :: samples[i].at >= cutoff
  {
    if samples != [] && samples[0].at < cutoff {
      k := PrunedCut(samples[1..], cutoff);
      k := k + 1;
    } else {
      k := 0;
    }
  }

  lemma PrunedIsRecent(samples: seq<Sample>, cutoff: real)
    requires Sorted(samples)
    ensures Pruned(samples, cutoff) == Recent(samples, cutoff)
  {
    var k := PrunedCut(samples, cutoff);
    RecentCut(samples, k, cutoff);
  }

  lemma {:induction false} RecentOfRecent(samples: seq<Sample>, low: real, high: real)
    requires low <= high
    ensures Recent(Recent(samples, low), high) == Recent(samples, high)
  {
    if samples != [] {
      var n := |samples| - 1;
      RecentOfRecent(samples[..n], low, high);
      assert samples[n].at < low ==> Recent(samples, low) == Recent(samples[..n], low);
      RecentAppend(Recent(samples[..n], low), samples[n], high);
    }
  }

  lemma SortedAppend(samples: seq<Sample>, s: Sample)
    requires Sorted(samples) && forall x | x in samples :: x.at <= s.at
    ensures Sorted(samples + [s])
  {
    assert forall i | 0 <= i < |samples| :: samples[i] in samples;
  }

  lemma {:induction false} RecentSorted(samples: seq<Sample>, cutoff: real)
    requires Sorted(samples)
    ensures Sorted(Recent(samples, cutoff))
    ensures forall x | x in Recent(samples, cutoff) :: x in samples
  {
    if samples != [] {
      var front, last := samples[..|samples| - 1], samples[|samples| - 1];
      RecentSorted(front, cutoff);
      forall x | x in Recent(front, cutoff) ensures x in samples && x.at <= last.at {
        assert x in front;
      }
      SortedAppend(Recent(front, cutoff), last);
    }
  }

  lemma RecentAppend(samples: seq<Sample>, s: Sample, cutoff: real)
    ensures Recent(samples + [s], cutoff) == Recent(samples, cutoff) + if s.at < cutoff then [] else [s]
  {
    assert (samples + [s])[..|samples|] == samples;
  }

  /** After every call the deque holds exactly the recent part of everything ever recorded. */
  lemma {:induction false} SamplesAreRecentHistory(cfg: Config, events: seq<Event>)
    requires Monotone(events) && events != []
    ensures Run(cfg, events).samples == Recent(History(events), events[|events| - 1].now - cfg.windowSeconds)
  {
    hide Recent, Sorted, Step, History;
    var n := |events| - 1;
    var front, last := events[..n], events[n];
    HistorySnoc(events);
    HistorySorted(front);
    if front != [] {
      SamplesAreRecentHistory(cfg, front);
      RecentSorted(History(front), front[n - 1].now - cfg.windowSeconds);
      RecentOfRecent(History(front), front[n - 1].now - cfg.windowSeconds, last.now - cfg.windowSeconds);
      assert front[n - 1].now <= last.now;
    } else {
      NoHistory();
    }
    KeptAfter(cfg, Run(cfg, front), History(front), last);
  }

  lemma NoHistory()
    ensures History([]) == [] && Sorted([])
  {
  }

  lemma HistorySnoc(events: seq<Event>)
    requires events != []
    ensures var front, last := events[..|events| - 1], events[|events| - 1];
            History(events) == History(front) + if last.Told? then [Sample(last.now, last.ok)] else []
  {
  }

  lemma KeptAfter(cfg: Config, c: Circuit, history: seq<Sample>, e: Event)
    requires Sorted(c.samples) && forall x | x in c.samples :: x.at <= e.now
    requires Recent(c.samples, e.now - cfg.windowSeconds) == Recent(history, e.now - cfg.windowSeconds)
    ensures Step(cfg, c, e).samples
         == Recent(history + if e.Told? then [Sample(e.now, e.ok)] else [], e.now - cfg.windowSeconds)
  {
    hide Pruned, Recent, Sorted, Tell, Ask;
    var cutoff := e.now - cfg.windowSeconds;
    StepSamples(cfg, c, e);
    if e.Told? {
      var s := Sample(e.now, e.ok);
      RecentAppend(c.samples, s, cutoff);
      RecentAppend(history, s, cutoff);
      SortedAppend(c.samples, s);
      PrunedIsRecent(c.samples + [s], cutoff);
    } else {
      PrunedIsRecent(c.samples, cutoff);
      assert history + [] == history;
    }
  }

  lemma StepSamples(cfg: Config, c: Circuit, e: Event)
    ensures Step(cfg, c, e).samples
         == Pruned(if e.Told? then c.samples + [Sample(e.now, e.ok)] else c.samples, e.now - cfg.windowSeconds)
  {
    hide Pruned, ErrorRate;
  }

  /**
    A failure recorded on a closed circuit opens it exactly when the recent history, that failure
    included, is long enough and more than the error rate of it failed. A success never opens it.
   */
  lemma OpensIff(cfg: Config, events: seq<Event>, now: real, ok: bool)
    requires Monotone(events + [Told(now, ok)])
    requires Run(cfg, events).openUntil.None? && Run(cfg, events).inflight == 0
    ensures var recent := Recent(History(events + [Told(now, ok)]), now - cfg.windowSeconds);
            var c := Run(cfg, events + [Told(now, ok)]);
            && (c.openUntil.Some? <==> !ok && |recent| >= cfg.minSamples && MostlyFailed(recent, cfg.errorRate))
            && (c.openUntil.Some? ==> c.openUntil.value == now + cfg.openSeconds)
  {
    hide Tell, Recent, History, ErrorRate, MostlyFailed;
    var all := events + [Told(now, ok)];
    assert all[..|events|] == events;
    assert Run(cfg, all) == Tell(cfg, Run(cfg, events), now, ok);
    hide Run, Monotone;
    SamplesAreRecentHistory(cfg, all);
    TellOpensIff(cfg, Run(cfg, events), now, ok);
    RateAbove(Run(cfg, all).samples, cfg.errorRate);
  }

  lemma TellOpensIff(cfg: Config, c: Circuit, now: real, ok: bool)
    requires c.openUntil.None? && c.inflight == 0
    ensures var d := Tell(cfg, c, now, ok);
            && (d.openUntil.Some? <==> !ok && |d.samples| >= cfg.minSamples && ErrorRate(d.samples) > cfg.errorRate)
            && (d.openUntil.Some? ==> d.openUntil.value == now + cfg.openSeconds)
  {
    hide ErrorRate, Pruned;
  }

  /** Strictly more than the given share of the samples failed; no samples have share zero. */
  predicate MostlyFailed(samples: seq<Sample>, rate: real) {
    if samples == [] then rate < 0.0 else Failures(samples) as real > rate * |samples| as real
  }

  lemma RateAbove(samples: seq<Sample>, rate: real)
    ensures ErrorRate(samples) > rate <==> MostlyFailed(samples, rate)
  {
    if samples != [] {
      var f, n := Failures(samples) as real, |samples| as real;
      DivideAbove(f, n, rate);
    }
  }

  lemma DivideAbove(f: real, n: real, rate: real)
    requires n > 0.0
    ensures f / n > rate <==> f > rate * n
  {
    var q := f / n;
    assert q * n == f;
    if q > rate {
      assert (q - rate) * n > 0.0;
    } else {
      assert (rate - q) * n >= 0.0;
    }
  }

  /** The failure share counts the samples that are not ok. */
  lemma {:induction false} FailuresAreCounted(samples: seq<Sample>)
    ensures Failures(samples) == |set i | 0 <= i < |samples| && !samples[i].ok|
  {
    var failed := set i | 0 <= i < |samples| && !samples[i].ok;
    if samples == [] {
      assert failed == {};
    } else {
      var n := |samples| - 1;
      FailuresAreCounted(samples[..n]);
      var before := set i | 0 <= i < n && !samples[..n][i].ok;
      assert failed == before + if samples[n].ok then {} else {n};
    }
  }

  // ---------- open, closed and probing ----------

  /**
    A call is let through if and only if the circuit is closed, or its time is over and a slot is free; then,
    and only then, it takes a slot.
   */
  lemma GrantedIff(cfg: Config, events: seq<Event>, j: nat)
    requires j < |events| && events[j].Asked?
    ensures var c, d := Run(cfg, events[..j]), Run(cfg, events[..j + 1]);
      && (Granted(cfg, events, j) <==>
            c.openUntil.None? || (c.openUntil.value <= events[j].now && c.inflight < cfg.halfOpenMax))
      && d.openUntil == c.openUntil
      && d.inflight == c.inflight + if c.openUntil.Some? && Granted(cfg, events, j) then 1 else 0
  {
    RunNext(cfg, events, j);
    hide Run, Pruned;
  }

  /**
    What an outcome does, for every configuration. While a probe is out a success closes the circuit and frees
    all slots, and a failure opens it for the full time and frees one. With no probe out an open circuit stays
    open.
   */
  lemma OutcomeDecides(cfg: Config, c: Circuit, now: real, ok: bool)
    ensures var d := Step(cfg, c, Told(now, ok));
      && (c.inflight > 0 && ok ==> d.openUntil == None && d.inflight == 0)
      && (c.inflight > 0 && !ok ==> d.openUntil == Some(now + cfg.openSeconds) && d.inflight == c.inflight - 1)
      && (c.inflight <= 0 ==> d.inflight == c.inflight && (c.openUntil.Some? ==> d.openUntil.Some?))
      && (c.inflight <= 0 && ok ==> d.openUntil == c.openUntil)
  {
    hide Pruned, ErrorRate;
  }

  lemma {:induction false} ClosedHasNoProbe(cfg: Config, events: seq<Event>)
    ensures Run(cfg, events).openUntil.None? ==> Run(cfg, events).inflight == 0
  {
    if events != [] {
      ClosedHasNoProbe(cfg, events[..|events| - 1]);
      hide Pruned, ErrorRate;
    }
  }

  /** The outcome told at k is a failure, with which the recent record is long enough and mostly failed. */
  predicate EnoughFailures(cfg: Config, events: seq<Event>, k: nat)
    requires k < |events|
  {
    && events[k].Told? && !events[k].ok
    && var recent := Recent(History(events[..k + 1]), events[k].now - cfg.windowSeconds);
       |recent| >= cfg.minSamples && MostlyFailed(recent, cfg.errorRate)
  }

  lemma ClosedNext(cfg: Config, events: seq<Event>, k: nat)
    requires Monotone(events) && k < |events| && Run(cfg, events[..k]).openUntil.None?
    ensures Run(cfg, events[..k + 1]).openUntil.None? <==> !EnoughFailures(cfg, events, k)
  {
    ClosedHasNoProbe(cfg, events[..k]);
    RunNext(cfg, events, k);
    hide Recent, History, MostlyFailed, Run, Pruned, ErrorRate, Monotone;
    if events[k].Told? {
      assert events[..k] + [Told(events[k].now, events[k].ok)] == events[..k + 1];
      OpensIff(cfg, events[..k], events[k].now, events[k].ok);
    }
  }

  /** A closed circuit stays closed for as long as the recent record never has enough failures. */
  lemma {:induction false} StaysClosedIff(cfg: Config, events: seq<Event>, i: nat, j: nat)
    requires Monotone(events) && i <= j <= |events| && Run(cfg, events[..i]).openUntil.None?
    ensures (forall k | i <= k <= j :: Run(cfg, events[..k]).openUntil.None?) <==> (forall k | i <= k < j :: !EnoughFailures(cfg, events, k))
    decreases j
  {
    hide Run, EnoughFailures, Monotone;
    if i < j {
      StaysClosedIff(cfg, events, i, j - 1);
      if Run(cfg, events[..j - 1]).openUntil.None? {
        ClosedNext(cfg, events, j - 1);
      }
      assert (forall k | i <= k <= j :: Run(cfg, events[..k]).openUntil.None?) <==>
        (forall k | i <= k <= j - 1 :: Run(cfg, events[..k]).openUntil.None?) && Run(cfg, events[..j]).openUntil.None?;
      assert (forall k | i <= k < j :: !EnoughFailures(cfg, events, k)) <==>
        (forall k | i <= k < j - 1 :: !EnoughFailures(cfg, events, k)) && !EnoughFailures(cfg, events, j - 1);
    }
  }

  /**
    After a success that is told while a probe is out every call is let through, until the recent record has
    enough failures again.
   */
  lemma GrantedAfterProbe(cfg: Config, events: seq<Event>, i: nat, j: nat)
    requires Monotone(events) && i < j < |events| && events[j].Asked?
    requires events[i].Told? && events[i].ok && Run(cfg, events[..i]).inflight > 0
    requires forall k | i < k < j :: !EnoughFailures(cfg, events, k)
    ensures Granted(cfg, events, j)
  {
    RunNext(cfg, events, i);
    OutcomeDecides(cfg, Run(cfg, events[..i]), events[i].now, events[i].ok);
    StaysClosedIff(cfg, events, i + 1, j);
    GrantedIff(cfg, events, j);
    hide Run, EnoughFailures, Granted, Step;
  }

  /**
    An outcome that is told while no probe is out, late ones of an open circuit included, opens the circuit for
    the full time if and only if it brings enough failures, and leaves it as it was otherwise.
   */
  lemma OutcomeWithoutProbe(cfg: Config, events: seq<Event>, k: nat)
    requires Monotone(events) && k < |events| && events[k].Told? && Run(cfg, events[..k]).inflight <= 0
    ensures Run(cfg, events[..k + 1]).openUntil
         == if EnoughFailures(cfg, events, k) then Some(events[k].now + cfg.openSeconds) else Run(cfg, events[..k]).openUntil
  {
    var upto := events[..k + 1];
    RunNext(cfg, events, k);
    assert Monotone(upto) && upto[k] == events[k];
    TellWithoutProbe(cfg, Run(cfg, events[..k]), events[k].now, events[k].ok);
    hide Run, Recent, History, ErrorRate, MostlyFailed, Tell, Monotone;
    SamplesAreRecentHistory(cfg, upto);
    RateAbove(Run(cfg, upto).samples, cfg.errorRate);
  }

  lemma TellWithoutProbe(cfg: Config, c: Circuit, now: real, ok: bool)
    requires c.inflight <= 0
    ensures var d := Tell(cfg, c, now, ok);
      d.openUntil == if !ok && |d.samples| >= cfg.minSamples && ErrorRate(d.samples) > cfg.errorRate then Some(now + cfg.openSeconds) else c.openUntil
  {
    hide ErrorRate, Pruned;
  }
}
