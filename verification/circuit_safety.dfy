/** An open circuit lets nothing through before its time, provided at most one probe may be out. */
module CircuitSafety {
  import opened Common
  import opened Circuits
  import opened CircuitRuns

  /** What every reachable circuit satisfies, at the instant of its last call or later. */
  predicate Sane(cfg: Config, c: Circuit, now: real) {
    && 0 <= c.inflight <= 1
    && (c.inflight > 0 ==> c.openUntil.Some? && c.openUntil.value <= now)
    && (c.openUntil.Some? ==> c.openUntil.value <= now + cfg.openSeconds)
  }

  lemma StepSane(cfg: Config, c: Circuit, before: real, e: Event)
    requires cfg.halfOpenMax <= 1 && Sane(cfg, c, before) && before <= e.now
    ensures Sane(cfg, Step(cfg, c, e), e.now)
  {
    hide Pruned, ErrorRate;
  }

  /** At most one probe is out at any time, and only once the opening time is over. */
  lemma {:induction false} RunSane(cfg: Config, events: seq<Event>)
    requires cfg.halfOpenMax <= 1 && Monotone(events) && events != []
    ensures Sane(cfg, Run(cfg, events), events[|events| - 1].now)
  {
    var n := |events| - 1;
    if n > 0 {
      RunSane(cfg, events[..n]);
      StepSane(cfg, Run(cfg, events[..n]), events[n - 1].now, events[n]);
    } else {
      StepSane(cfg, CLOSED, events[0].now, events[0]);
    }
  }

  /** One step of an open circuit before its time: nothing is let through and the time does not move back. */
  lemma StepWhileOpen(cfg: Config, c: Circuit, before: real, e: Event)
    requires Sane(cfg, c, before) && before <= e.now
    requires c.openUntil.Some? && e.now < c.openUntil.value
    ensures e.Asked? ==> !Ask(cfg, c, e.now).1
    ensures var d := Step(cfg, c, e); d.openUntil.Some? && d.openUntil.value >= c.openUntil.value
  {
    hide Pruned, ErrorRate;
  }

  /** Whenever the circuit is open until u, every call before u is refused, and it stays open until u at least. */
  lemma {:induction false} OpenUntilMeansIt(cfg: Config, events: seq<Event>, i: nat, j: nat)
    requires cfg.halfOpenMax <= 1 && Monotone(events) && 0 < i <= j < |events|
    requires Run(cfg, events[..i]).openUntil.Some? && events[j].now < Run(cfg, events[..i]).openUntil.value
    ensures !Granted(cfg, events, j)
    ensures var u := Run(cfg, events[..j + 1]).openUntil;
            u.Some? && u.value >= Run(cfg, events[..i]).openUntil.value
    decreases j
  {
    hide Sane, Pruned, ErrorRate;
    if i < j {
      OpenUntilMeansIt(cfg, events, i, j - 1);
    }
    RunSane(cfg, events[..j]);
    RunNext(cfg, events, j);
    StepWhileOpen(cfg, Run(cfg, events[..j]), events[j - 1].now, events[j]);
  }

  /** An open circuit is closed by a step if and only if the step tells a success while a probe is out. */
  lemma ClosesIff(cfg: Config, c: Circuit, e: Event)
    requires c.openUntil.Some?
    ensures Step(cfg, c, e).openUntil.None? <==> e.Told? && e.ok && c.inflight > 0
  {
    hide Pruned, ErrorRate;
  }

  /** In every run: once opened at t, no call before t plus the opening time is let through. */
  ghost predicate StrictlyOpen(cfg: Config) {
    forall events: seq<Event>, i: nat, j: nat | Monotone(events) && i < j < |events| && OpenedAt(cfg, events, i)
                                                 && events[j].now < events[i].now + cfg.openSeconds ::
      !Granted(cfg, events, j)
  }

  /** Event i (re)opens the circuit. */
  predicate OpenedAt(cfg: Config, events: seq<Event>, i: nat)
    requires i < |events|
  {
    && events[i].Told?
    && Run(cfg, events[..i + 1]).openUntil == Some(events[i].now + cfg.openSeconds)
  }

  lemma OneProbeIsStrict(cfg: Config)
    requires cfg.halfOpenMax <= 1
    ensures StrictlyOpen(cfg)
  {
    forall events: seq<Event>, i: nat, j: nat | Monotone(events) && i < j < |events| && OpenedAt(cfg, events, i)
                                                 && events[j].now < events[i].now + cfg.openSeconds
      ensures !Granted(cfg, events, j)
    {
      OpenUntilMeansIt(cfg, events, i + 1, j);
    }
  }

  // ---------- with two probes it fails ----------

  function FailedAtOnce(n: nat): seq<Sample> {
    seq(n, i => Sample(0.0, false))
  }

  function FailuresAtOnce(n: nat): seq<Event> {
    seq(n, i => Told(0.0, false))
  }

  /** As many failures as open a closed circuit. */
  function Enough(cfg: Config): nat {
    if cfg.minSamples < 1 then 1 else cfg.minSamples
  }

  lemma {:induction false} AllFailed(n: nat, cutoff: real)
    requires cutoff <= 0.0
    ensures Failures(FailedAtOnce(n)) == n && Pruned(FailedAtOnce(n), cutoff) == FailedAtOnce(n)
  {
    if n > 0 {
      assert FailedAtOnce(n)[..n - 1] == FailedAtOnce(n - 1);
      AllFailed(n - 1, cutoff);
    }
  }

  lemma {:induction false} FailuresOpen(cfg: Config, n: nat)
    requires cfg.windowSeconds >= 0.0 && cfg.errorRate < 1.0 && n <= Enough(cfg)
    ensures Run(cfg, FailuresAtOnce(n)) == Circuit(FailedAtOnce(n), if n < Enough(cfg) then None else Some(cfg.openSeconds), 0)
  {
    if n > 0 {
      var es := FailuresAtOnce(n);
      assert es[..n - 1] == FailuresAtOnce(n - 1);
      FailuresOpen(cfg, n - 1);
      OneMoreFails(cfg, n);
      hide Tell;
    }
  }

  lemma OneMoreFails(cfg: Config, n: nat)
    requires cfg.windowSeconds >= 0.0 && cfg.errorRate < 1.0 && 1 <= n <= Enough(cfg)
    ensures Tell(cfg, Circuit(FailedAtOnce(n - 1), None, 0), 0.0, false)
         == Circuit(FailedAtOnce(n), if n < Enough(cfg) then None else Some(cfg.openSeconds), 0)
  {
    assert FailedAtOnce(n - 1) + [Sample(0.0, false)] == FailedAtOnce(n);
    AllFailed(n, 0.0 - cfg.windowSeconds);
    AllFailedRate(n, cfg.errorRate);
    hide Pruned, ErrorRate, FailedAtOnce;
  }

  lemma AllFailedRate(n: nat, rate: real)
    requires n >= 1 && rate < 1.0
    ensures ErrorRate(FailedAtOnce(n)) > rate && |FailedAtOnce(n)| == n
  {
    AllFailed(n, 0.0);
    RateAbove(FailedAtOnce(n), rate);
    Share(n as real, rate);
    hide ErrorRate, Failures;
  }

  lemma Share(n: real, rate: real)
    requires n > 0.0 && rate < 1.0
    ensures n > rate * n
  {
    assert (1.0 - rate) * n > 0.0;
  }

  /** Both probes go out when the time is over; one fails, the other succeeds, and the circuit is closed far too early. */
  function TwoProbes(cfg: Config): seq<Event> {
    var t := cfg.openSeconds;
    FailuresAtOnce(Enough(cfg)) + [Asked(t), Asked(t), Told(t, false), Told(t, true), Asked(t)]
  }

  lemma TwoProbesRun(cfg: Config)
    requires cfg.windowSeconds >= 0.0 && cfg.errorRate < 1.0 && cfg.openSeconds > 0.0 && cfg.halfOpenMax >= 2
    ensures var n := Enough(cfg);
      Monotone(TwoProbes(cfg)) && OpenedAt(cfg, TwoProbes(cfg), n + 2) && Granted(cfg, TwoProbes(cfg), n + 4)
  {
    var es, n, t := TwoProbes(cfg), Enough(cfg), cfg.openSeconds;
    FailuresOpen(cfg, n);
    ProbeEvents(cfg);
    var c := Run(cfg, es[..n]);
    RunNext(cfg, es, n);
    RunNext(cfg, es, n + 1);
    RunNext(cfg, es, n + 2);
    RunNext(cfg, es, n + 3);
    hide *;
    ProbesClose(cfg, c);
    OpenedHere(cfg, es, n + 2);
    GrantedHere(cfg, es, n + 4);
  }

  lemma OpenedHere(cfg: Config, events: seq<Event>, i: nat)
    requires i < |events| && events[i].Told? && Run(cfg, events[..i + 1]).openUntil == Some(events[i].now + cfg.openSeconds)
    ensures OpenedAt(cfg, events, i)
  {
  }

  lemma GrantedHere(cfg: Config, events: seq<Event>, i: nat)
    requires i < |events| && events[i].Asked? && Ask(cfg, Run(cfg, events[..i]), events[i].now).1
    ensures Granted(cfg, events, i)
  {
  }

  lemma ProbeEvents(cfg: Config)
    requires cfg.openSeconds > 0.0
    ensures var es, n, t := TwoProbes(cfg), Enough(cfg), cfg.openSeconds;
      && |es| == n + 5 && es[..n] == FailuresAtOnce(n) && Monotone(es)
      && es[n] == es[n + 1] == es[n + 4] == Asked(t) && es[n + 2] == Told(t, false) && es[n + 3] == Told(t, true)
  {
    var es, n := TwoProbes(cfg), Enough(cfg);
    assert es[..n] == FailuresAtOnce(n);
  }

  /** From a circuit that is open until t, with two slots: what the two probes and their answers at t make of it. */
  lemma ProbesClose(cfg: Config, c: Circuit)
    requires cfg.halfOpenMax >= 2 && c.openUntil == Some(cfg.openSeconds) && c.inflight == 0
    ensures var t := cfg.openSeconds;
      var c2 := Step(cfg, Step(cfg, c, Asked(t)), Asked(t));
      var c3 := Step(cfg, c2, Told(t, false));
      c3.openUntil == Some(t + t) && Ask(cfg, Step(cfg, c3, Told(t, true)), t).1
  {
    hide Pruned, ErrorRate;
  }

  // ---------- exactly when it holds ----------

  lemma {:induction false} NeverOpens(cfg: Config, events: seq<Event>)
    requires cfg.errorRate >= 1.0
    ensures Run(cfg, events).openUntil.None? && Run(cfg, events).inflight == 0
  {
    if events != [] {
      var c, e := Run(cfg, events[..|events| - 1]), events[|events| - 1];
      NeverOpens(cfg, events[..|events| - 1]);
      if e.Told? {
        RateAtMostOne(Pruned(c.samples + [Sample(e.now, e.ok)], e.now - cfg.windowSeconds));
      }
      hide Pruned, ErrorRate;
    }
  }

  lemma RateAtMostOne(samples: seq<Sample>)
    ensures ErrorRate(samples) <= 1.0
  {
    FailuresAtMost(samples);
    RateAbove(samples, 1.0);
  }

  lemma {:induction false} FailuresAtMost(samples: seq<Sample>)
    ensures Failures(samples) <= |samples|
  {
    if samples != [] {
      FailuresAtMost(samples[..|samples| - 1]);
    }
  }

  /**
    For every configuration whose window reaches back: the guarantee holds exactly when at most one probe may
    be out, or nothing is ever held open, or no share of failures is ever enough to open.
   */
  lemma StrictIff(cfg: Config)
    requires cfg.windowSeconds >= 0.0
    ensures StrictlyOpen(cfg) <==> cfg.halfOpenMax <= 1 || cfg.openSeconds <= 0.0 || cfg.errorRate >= 1.0
  {
    if cfg.halfOpenMax <= 1 {
      OneProbeIsStrict(cfg);
    } else if cfg.openSeconds <= 0.0 {
      hide Run, Granted, OpenedAt;
    } else if cfg.errorRate >= 1.0 {
      forall events: seq<Event>, i: nat | i < |events| ensures !OpenedAt(cfg, events, i) {
        NeverOpens(cfg, events[..i + 1]);
      }
      hide OpenedAt, Granted;
    } else {
      TwoProbesRun(cfg);
      hide OpenedAt, Granted;
    }
  }

  /** With the default settings the guarantee holds exactly when at most one probe may be out. */
  lemma StrictIffOneProbe(cfg: Config)
    requires cfg == DEFAULTS.(halfOpenMax := cfg.halfOpenMax)
    ensures StrictlyOpen(cfg) <==> cfg.halfOpenMax <= 1
  {
    StrictIff(cfg);
  }

  // ---------- a probe that never answers ----------

  /**
    A granted probe whose outcome is never told blocks the capability for good: while every slot is taken
    and nothing is told, no call is let through, however much time passes.
   */
  lemma {:induction false} SilentProbeBlocks(cfg: Config, events: seq<Event>, i: nat, j: nat)
    requires 0 < i <= j < |events|
    requires Run(cfg, events[..i]).openUntil.Some? && Run(cfg, events[..i]).inflight >= cfg.halfOpenMax
    requires forall k | i <= k <= j :: events[k].Asked?
    ensures !Granted(cfg, events, j)
    ensures var c := Run(cfg, events[..j + 1]);
            c.openUntil.Some? && c.inflight >= cfg.halfOpenMax
    decreases j
  {
    hide Pruned;
    if i < j {
      SilentProbeBlocks(cfg, events, i, j - 1);
    }
    RunNext(cfg, events, j);
  }
}
