/**
  Per-capability circuit breakers. Times are seconds of a monotonic clock, as reals; every call takes the
  clock's reading.
 */
module Circuits {
  import opened Common

  datatype Sample = Sample(at: real, ok: bool)

  datatype Config = Config(windowSeconds: real, openSeconds: real, minSamples: int, errorRate: real, halfOpenMax: int)

  const DEFAULTS: Config := Config(300.0, 120.0, 2, 0.5, 1)

  /** What one capability's state amounts to. */
  datatype Circuit = Circuit(samples: seq<Sample>, openUntil: Option<real>, inflight: int)

  const CLOSED: Circuit := Circuit([], None, 0)

  datatype Capability = Chat | Extract | Asr | Tts | Vision | Safety | Search

  /** Drops samples from the front until one is recent enough. */
  function Pruned(samples: seq<Sample>, cutoff: real): seq<Sample> {
    if samples != [] && samples[0].at < cutoff then Pruned(samples[1..], cutoff) else samples
  }

  function Failures(samples: seq<Sample>): nat {
    if samples == [] then 0
    else Failures(samples[..|samples| - 1]) + if samples[|samples| - 1].ok then 0 else 1
  }

  function ErrorRate(samples: seq<Sample>): real {
    if samples == [] then 0.0 else Failures(samples) as real / |samples| as real
  }

  function Ask(cfg: Config, c: Circuit, now: real): (Circuit, bool) {
    var kept := c.(samples := Pruned(c.samples, now - cfg.windowSeconds));
    if c.openUntil.None? then (kept, true)
    else if now < c.openUntil.value then (kept, false)
    else if c.inflight >= cfg.halfOpenMax then (kept, false)
    else (kept.(inflight := c.inflight + 1), true)
  }

  function Tell(cfg: Config, c: Circuit, now: real, ok: bool): Circuit {
    var kept := Pruned(c.samples + [Sample(now, ok)], now - cfg.windowSeconds);
    if c.inflight > 0 then
      if ok then Circuit(kept, None, 0)
      else Circuit(kept, Some(now + cfg.openSeconds), c.inflight - 1)
    else if !ok && ErrorRate(kept) > cfg.errorRate && |kept| >= cfg.minSamples then
      Circuit(kept, Some(now + cfg.openSeconds), c.inflight)
    else Circuit(kept, c.openUntil, c.inflight)
  }

  class CapabilityState {
    var samples: seq<Sample>
    var openUntil: Option<real>
    var halfOpenInflight: int

    ghost function View(): Circuit
      reads this
    {
      Circuit(samples, openUntil, halfOpenInflight)
    }

    constructor ()
      ensures View() == CLOSED
    {
      samples, openUntil, halfOpenInflight := [], None, 0;
    }

    method Prune(cutoff: real)
      modifies this`samples
      ensures samples == Pruned(old(samples), cutoff)
    {
      while samples != [] && samples[0].at < cutoff
        invariant Pruned(samples, cutoff) == Pruned(old(samples), cutoff)
        decreases |samples|
      {
        samples := samples[1..];
      }
    }

    method FailureRate() returns (rate: real)
      ensures rate == ErrorRate(samples)
    {
      if samples == [] {
        return 0.0;
      }
      var failures := 0;
      var i := 0;
      while i < |samples|
        invariant 0 <= i <= |samples| && failures == Failures(samples[..i])
      {
        assert samples[..i + 1][..i] == samples[..i];
        if !samples[i].ok {
          failures := failures + 1;
        }
        i := i + 1;
      }
      assert samples[..i] == samples;
      return failures as real / |samples| as real;
    }
  }

  /** The circuits of all capabilities; a state comes into being when its capability is first used. */
  class CapabilityCircuits {
    const cfg: Config
    var states: map<Capability, CapabilityState>

    ghost predicate Valid()
      reads this
    {
      forall a, b | a in states && b in states && states[a] == states[b] :: a == b
    }

    ghost function Repr(): set<object>
      reads this
    {
      {this} + set a | a in states :: states[a]
    }

    ghost function Of(capability: Capability): Circuit
      reads this, Repr()
    {
      if capability in states then states[capability].View() else CLOSED
    }

    constructor (cfg: Config)
      ensures Valid() && this.cfg == cfg && fresh(Repr()) && forall a :: Of(a) == CLOSED
    {
      this.cfg := cfg;
      states := map[];
    }

    method StateOf(capability: Capability) returns (state: CapabilityState)
      requires Valid()
      modifies this
      ensures Valid() && fresh(Repr() - old(Repr()))
      ensures capability in states && state == states[capability]
      ensures forall a :: Of(a) == old(Of(a))
      ensures forall a | a in old(states) :: a in states && states[a] == old(states[a])
      ensures forall a | a in states && a != capability :: a in old(states)
    {
      if capability !in states {
        var created := new CapabilityState();
        states := states[capability := created];
      }
      state := states[capability];
    }

    method Allow(capability: Capability, now: real) returns (granted: bool)
      requires Valid()
      modifies Repr()
      ensures Valid() && fresh(Repr() - old(Repr()))
      ensures (Of(capability), granted) == Ask(cfg, old(Of(capability)), now)
      ensures forall a | a != capability :: Of(a) == old(Of(a))
    {
      hide Pruned;
      var state := StateOf(capability);
      state.Prune(now - cfg.windowSeconds);
      if state.openUntil.None? {
        return true;
      }
      if now < state.openUntil.value {
        return false;
      }
      if state.halfOpenInflight >= cfg.halfOpenMax {
        return false;
      }
      state.halfOpenInflight := state.halfOpenInflight + 1;
      return true;
    }

    method Record(capability: Capability, now: real, ok: bool)
      requires Valid()
      modifies Repr()
      ensures Valid() && fresh(Repr() - old(Repr()))
      ensures Of(capability) == Tell(cfg, old(Of(capability)), now, ok)
      ensures forall a | a != capability :: Of(a) == old(Of(a))
    {
      hide Pruned, ErrorRate, Failures;
      var state := StateOf(capability);
      state.samples := state.samples + [Sample(now, ok)];
      state.Prune(now - cfg.windowSeconds);
      if state.halfOpenInflight > 0 {
        state.halfOpenInflight := if 0 > state.halfOpenInflight - 1 then 0 else state.halfOpenInflight - 1;
        if ok {
          state.openUntil := None;
          state.halfOpenInflight := 0;
        } else {
          state.openUntil := Some(now + cfg.openSeconds);
        }
        return;
      }
      var rate := state.FailureRate();
      if !ok && rate > cfg.errorRate {
        if |state.samples| >= cfg.minSamples {
          state.openUntil := Some(now + cfg.openSeconds);
        }
      }
    }

    method IsOpen(capability: Capability, now: real) returns (open: bool)
      requires Valid()
      modifies this
      ensures Valid() && fresh(Repr() - old(Repr())) && forall a :: Of(a) == old(Of(a))
      ensures open <==> Of(capability).openUntil.Some? && now < Of(capability).openUntil.value
    {
      var state := StateOf(capability);
      return state.openUntil.Some? && now < state.openUntil.value;
    }
  }
}
