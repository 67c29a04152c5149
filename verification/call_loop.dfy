/**
  One provider call: attempts, backoff and the circuit breaker around them. What the network, the random
  generator and the sleep do is given from outside, turn by turn.
 */
module CallLoop {
  import opened Common
  import opened Circuits
  import opened CircuitRuns
  import opened CircuitSafety

  const RETRY_BASE_SECONDS: real := 0.05
  const CONDITIONAL_RETRY_COUNT: nat := 1

  datatype FailureKind = Timeout | Connect | Http429 | Http5xx | Http4xx | Schema

  /** An attempt returns, fails in a way the loop handles, or lets some other exception escape. */
  datatype Attempt = Returned | Failed(kind: FailureKind) | Escaped

  /**
    One turn of the loop: how long the attempt takes and how it ends, the two independent draws of the
    jitter, and how much longer than asked the sleep lasts.
   */
  datatype Turn = Turn(duration: real, attempt: Attempt, checkJitter: real, sleepJitter: real, overshoot: real)
  {
    predicate Possible() {
      0.0 <= duration && 0.0 <= checkJitter <= RETRY_BASE_SECONDS && 0.0 <= sleepJitter <= RETRY_BASE_SECONDS
      && 0.0 <= overshoot
    }
  }

  datatype Outcome = Output | CircuitOpen | Raised(kind: FailureKind) | Expired(kind: FailureKind) | Broken

  function TimeoutSeconds(capability: Capability): real {
    match capability
    case Chat => 18.0
    case Extract => 30.0
    case Asr => 22.0
    case Tts => 18.0
    case Vision => 28.0
    case Safety => 28.0
    case Search => 12.0
  }

  function Pow2(n: nat): (p: real)
    ensures p >= 1.0
  {
    if n == 0 then 1.0 else 2.0 * Pow2(n - 1)
  }

  function RetryDelay(retryNumber: nat, jitter: real): real {
    RETRY_BASE_SECONDS * Pow2(if retryNumber > 0 then retryNumber - 1 else 0) + jitter
  }

  predicate Retryable(kind: FailureKind, capability: Capability) {
    capability != Search && (kind == Connect || kind == Http429 || kind == Http5xx)
  }

  predicate ShouldRetry(kind: FailureKind, capability: Capability, retriesUsed: nat, remaining: real, jitter: real) {
    && Retryable(kind, capability)
    && retriesUsed < CONDITIONAL_RETRY_COUNT
    && remaining > RetryDelay(retriesUsed + 1, jitter) + 0.05
  }

  /** The check draws one delay and the sleep another; still the sleep leaves more than the check's own draw. */
  lemma BackoffLeavesBudget(kind: FailureKind, capability: Capability, retriesUsed: nat, remaining: real, turn: Turn)
    requires turn.Possible() && ShouldRetry(kind, capability, retriesUsed, remaining, turn.checkJitter)
    ensures remaining - RetryDelay(retriesUsed + 1, turn.sleepJitter) > turn.checkJitter
  {
  }

  /** The check with some margin passes, and yet the sleep uses up all that remained. */
  predicate Overruns(margin: real, remaining: real, checkJitter: real, sleepJitter: real) {
    && 0.0 <= checkJitter <= RETRY_BASE_SECONDS && 0.0 <= sleepJitter <= RETRY_BASE_SECONDS
    && remaining > RetryDelay(1, checkJitter) + margin
    && remaining - RetryDelay(1, sleepJitter) <= 0.0
  }

  /** The margin 0.05 is the whole jitter range: a margin is safe for every pair of draws exactly when it is no less. */
  lemma MarginIsTight(margin: real)
    requires 0.0 <= margin
    ensures (forall remaining, checkJitter, sleepJitter :: !Overruns(margin, remaining, checkJitter, sleepJitter))
       <==> margin >= RETRY_BASE_SECONDS
  {
    if margin < RETRY_BASE_SECONDS {
      assert Overruns(margin, RetryDelay(1, RETRY_BASE_SECONDS), 0.0, RETRY_BASE_SECONDS);
    }
  }

  // ---------- the call as a function ----------

  /** How a call ends, after how many attempts, what the circuit was asked and told, and where that left it. */
  datatype Call = Call(outcome: Outcome, attempts: nat, events: seq<Event>, circuit: Circuit)

  function Play(cfg: Config, c: Circuit, capability: Capability, start: real, turns: nat -> Turn): Call {
    var asked := Ask(cfg, c, start);
    if !asked.1 then Call(CircuitOpen, 0, [Asked(start)], asked.0)
    else After(Asked(start), Tries(cfg, asked.0, capability, start + TimeoutSeconds(capability), start, 0, None, turns))
  }

  function After(e: Event, call: Call): Call {
    call.(events := [e] + call.events)
  }

  /** The attempts from a granted ask on. */
  function Tries(cfg: Config, c: Circuit, capability: Capability, deadline: real, now: real, used: nat, last: Option<FailureKind>, turns: nat -> Turn): Call
    requires used <= CONDITIONAL_RETRY_COUNT
    decreases CONDITIONAL_RETRY_COUNT - used
  {
    if deadline - now <= 0.0 then Call(Expired(if last.Some? then last.value else Timeout), used, [], c)
    else
      var turn := turns(used);
      var answered := now + turn.duration;
      match turn.attempt
      case Escaped => Call(Broken, used + 1, [], c)
      case Returned => Call(Output, used + 1, [Told(answered, true)], Tell(cfg, c, answered, true))
      case Failed(kind) =>
        var told := Tell(cfg, c, answered, false);
        if !ShouldRetry(kind, capability, used, deadline - answered, turn.checkJitter) then
          Call(Raised(kind), used + 1, [Told(answered, false)], told)
        else
          var again := answered + RetryDelay(used + 1, turn.sleepJitter) + turn.overshoot;
          var asked := Ask(cfg, told, again);
          After(Told(answered, false),
            if !asked.1 then Call(Raised(kind), used + 1, [Asked(again)], asked.0)
            else After(Asked(again), Tries(cfg, asked.0, capability, deadline, again, used + 1, Some(kind), turns)))
  }

  // ---------- what can be read off the turns beforehand ----------

  /** The failed attempt has the kind, the budget and the draw for another one. */
  predicate Retries(capability: Capability, turn: Turn) {
    turn.attempt.Failed?
    && ShouldRetry(turn.attempt.kind, capability, 0, TimeoutSeconds(capability) - turn.duration, turn.checkJitter)
  }

  /** Attempt and sleep together use up the whole budget. */
  predicate Oversleeps(capability: Capability, turn: Turn) {
    turn.duration + RetryDelay(1, turn.sleepJitter) + turn.overshoot >= TimeoutSeconds(capability)
  }

  function AnsweredAt(start: real, turns: nat -> Turn): real {
    start + turns(0).duration
  }

  function AgainAt(start: real, turns: nat -> Turn): real {
    AnsweredAt(start, turns) + RetryDelay(1, turns(0).sleepJitter) + turns(0).overshoot
  }

  /** The circuit grants the call, the first attempt asks for another, and the circuit grants that too. */
  predicate Regranted(cfg: Config, c: Circuit, capability: Capability, start: real, turns: nat -> Turn) {
    && Ask(cfg, c, start).1 && Retries(capability, turns(0))
    && Ask(cfg, Tell(cfg, Ask(cfg, c, start).0, AnsweredAt(start, turns), false), AgainAt(start, turns)).1
  }

  /** A granted attempt ends in an exception that nobody handles, or the granted retry comes after the deadline. */
  predicate Leaks(cfg: Config, c: Circuit, capability: Capability, start: real, turns: nat -> Turn) {
    || (Ask(cfg, c, start).1 && turns(0).attempt == Escaped)
    || (Regranted(cfg, c, capability, start, turns) && (Oversleeps(capability, turns(0)) || turns(1).attempt == Escaped))
  }

  /** What the circuit is asked and told at most, and when. */
  function Trace(start: real, turns: nat -> Turn): seq<Event> {
    var again := AgainAt(start, turns);
    [Asked(start), Told(AnsweredAt(start, turns), turns(0).attempt == Returned), Asked(again),
     Told(again + turns(1).duration, turns(1).attempt == Returned)]
  }

  // ---------- the laws of a call ----------

  /** A circuit after a list of events. */
  function Replay(cfg: Config, c: Circuit, events: seq<Event>): Circuit
    decreases |events|
  {
    if events == [] then c else Replay(cfg, Step(cfg, c, events[0]), events[1..])
  }

  function Tells(events: seq<Event>): nat {
    if events == [] then 0 else (if events[0].Told? then 1 else 0) + Tells(events[1..])
  }

  /** How many of the calls in events are let through. */
  function Grants(cfg: Config, c: Circuit, events: seq<Event>): nat
    decreases |events|
  {
    if events == [] then 0
    else (if events[0].Asked? && Ask(cfg, c, events[0].now).1 then 1 else 0) + Grants(cfg, Step(cfg, c, events[0]), events[1..])
  }

  /** Everything a caller can rely on, in terms of the turns and of how the circuit stood. */
  ghost predicate Lawful(cfg: Config, c: Circuit, capability: Capability, start: real, turns: nat -> Turn, p: Call) {
    && p.attempts <= 1 + CONDITIONAL_RETRY_COUNT && (capability == Search ==> p.attempts <= 1)
    && p.circuit == Replay(cfg, c, p.events)
    && p.events <= Trace(start, turns)
    && Tells(p.events) == p.attempts - (if p.outcome.Broken? then 1 else 0)
    && Grants(cfg, c, p.events) == Tells(p.events) + (if Leaks(cfg, c, capability, start, turns) then 1 else 0)
    && (p.attempts == 2 <==> Regranted(cfg, c, capability, start, turns) && !Oversleeps(capability, turns(0)))
    && OutcomeLawful(cfg, c, capability, start, turns, p)
  }

  ghost predicate OutcomeLawful(cfg: Config, c: Circuit, capability: Capability, start: real, turns: nat -> Turn, p: Call) {
    && (p.outcome.CircuitOpen? <==> p.attempts == 0)
    && (p.outcome.CircuitOpen? <==> !Ask(cfg, c, start).1)
    && (p.outcome.Broken? <==> 0 < p.attempts && turns(p.attempts - 1).attempt == Escaped)
    && (p.outcome.Output? <==> 0 < p.attempts && turns(p.attempts - 1).attempt == Returned)
    && (p.outcome.Expired? <==> Regranted(cfg, c, capability, start, turns) && Oversleeps(capability, turns(0)))
    && (p.outcome.Raised? || p.outcome.Expired? ==> 0 < p.attempts && turns(p.attempts - 1).attempt == Failed(p.outcome.kind))
  }

  lemma Prepend(cfg: Config, c: Circuit, e: Event, events: seq<Event>)
    ensures Replay(cfg, c, [e] + events) == Replay(cfg, Step(cfg, c, e), events)
    ensures Tells([e] + events) == (if e.Told? then 1 else 0) + Tells(events)
    ensures Grants(cfg, c, [e] + events)
         == (if e.Asked? && Ask(cfg, c, e.now).1 then 1 else 0) + Grants(cfg, Step(cfg, c, e), events)
  {
    assert ([e] + events)[1..] == events;
  }

  /** What the attempts from a granted ask on do to the counts: one more told than granted, unless the last grant leaks. */
  ghost predicate Settles(cfg: Config, c: Circuit, p: Call, told: nat, leaks: bool) {
    && p.circuit == Replay(cfg, c, p.events)
    && Tells(p.events) == told
    && 1 + Grants(cfg, c, p.events) == told + (if leaks then 1 else 0)
  }

  lemma NothingMore(cfg: Config, c: Circuit)
    ensures Replay(cfg, c, []) == c && Tells([]) == 0 && Grants(cfg, c, []) == 0
  {
  }

  /** The second attempt, from its grant on. */
  lemma SecondTry(cfg: Config, c: Circuit, capability: Capability, deadline: real, now: real, last: FailureKind, turns: nat -> Turn)
    ensures var p, answered := Tries(cfg, c, capability, deadline, now, 1, Some(last), turns), now + turns(1).duration;
      if deadline <= now then p == Call(Expired(last), 1, [], c) && Settles(cfg, c, p, 0, true)
      else
        && p.attempts == 2
        && match turns(1).attempt
           case Escaped => p.outcome == Broken && p.events == [] && Settles(cfg, c, p, 0, true)
           case Returned => p.outcome == Output && p.events == [Told(answered, true)] && Settles(cfg, c, p, 1, false)
           case Failed(kind) => p.outcome == Raised(kind) && p.events == [Told(answered, false)] && Settles(cfg, c, p, 1, false)
  {
    hide Tell, Ask, Pow2;
    var answered := now + turns(1).duration;
    var told := Told(answered, turns(1).attempt == Returned);
    NothingMore(cfg, c);
    NothingMore(cfg, Step(cfg, c, told));
    Prepend(cfg, c, told, []);
    assert [told] + [] == [told];
  }

  /** The first attempt, from its grant on, when it is the last. */
  lemma OnlyTry(cfg: Config, c: Circuit, capability: Capability, start: real, turns: nat -> Turn)
    requires !(Retries(capability, turns(0)) && Ask(cfg, Tell(cfg, c, AnsweredAt(start, turns), false), AgainAt(start, turns)).1)
    ensures var p := Tries(cfg, c, capability, start + TimeoutSeconds(capability), start, 0, None, turns);
      var told := Told(AnsweredAt(start, turns), turns(0).attempt == Returned);
      && p.attempts == 1
      && match turns(0).attempt
         case Escaped => p.outcome == Broken && p.events == [] && Settles(cfg, c, p, 0, true)
         case Returned => p.outcome == Output && p.events == [told] && Settles(cfg, c, p, 1, false)
         case Failed(kind) =>
           p.outcome == Raised(kind)
           && p.events == (if Retries(capability, turns(0)) then [told, Asked(AgainAt(start, turns))] else [told]) && Settles(cfg, c, p, 1, false)
  {
    hide Tell, Ask, Pow2;
    var told, asked := Told(AnsweredAt(start, turns), turns(0).attempt == Returned), Asked(AgainAt(start, turns));
    var after := Step(cfg, c, told);
    NothingMore(cfg, c);
    NothingMore(cfg, after);
    NothingMore(cfg, Step(cfg, after, asked));
    Prepend(cfg, c, told, []);
    Prepend(cfg, after, asked, []);
    Prepend(cfg, c, told, [asked]);
    assert [told] + [] == [told] && [asked] + [] == [asked] && [told] + [asked] == [told, asked];
    hide Replay, Grants, Tells;
  }

  /** The first attempt, from its grant on, when another follows. */
  lemma FirstTry(cfg: Config, c: Circuit, capability: Capability, start: real, turns: nat -> Turn)
    requires Retries(capability, turns(0)) && Ask(cfg, Tell(cfg, c, AnsweredAt(start, turns), false), AgainAt(start, turns)).1
    ensures var deadline, again := start + TimeoutSeconds(capability), AgainAt(start, turns);
      var p, next := Tries(cfg, c, capability, deadline, start, 0, None, turns), Ask(cfg, Tell(cfg, c, AnsweredAt(start, turns), false), again).0;
      var rest := Tries(cfg, next, capability, deadline, again, 1, Some(turns(0).attempt.kind), turns);
      && p == Call(rest.outcome, rest.attempts, [Told(AnsweredAt(start, turns), false), Asked(again)] + rest.events, rest.circuit)
      && forall told: nat, leaks: bool :: Settles(cfg, next, rest, told, leaks) ==> Settles(cfg, c, p, 1 + told, leaks)
  {
    hide Tell, Ask, Pow2;
    var told, asked := Told(AnsweredAt(start, turns), false), Asked(AgainAt(start, turns));
    var after := Step(cfg, c, told);
    var rest := Tries(cfg, Step(cfg, after, asked), capability, start + TimeoutSeconds(capability), asked.now, 1, Some(turns(0).attempt.kind), turns);
    Prepend(cfg, after, asked, rest.events);
    Prepend(cfg, c, told, [asked] + rest.events);
    assert [told] + ([asked] + rest.events) == [told, asked] + rest.events;
    hide Replay, Grants, Tells;
  }

  lemma PlayIsLawful(cfg: Config, c: Circuit, capability: Capability, start: real, turns: nat -> Turn)
    ensures Lawful(cfg, c, capability, start, turns, Play(cfg, c, capability, start, turns))
  {
    if Regranted(cfg, c, capability, start, turns) {
      TwoAttempts(cfg, c, capability, start, turns);
    } else {
      OneAttempt(cfg, c, capability, start, turns);
    }
  }

  lemma OneAttempt(cfg: Config, c: Circuit, capability: Capability, start: real, turns: nat -> Turn)
    requires !Regranted(cfg, c, capability, start, turns)
    ensures Lawful(cfg, c, capability, start, turns, Play(cfg, c, capability, start, turns))
  {
    hide Ask, Tell, Pow2, Tries, Replay, Grants, Tells, ShouldRetry, RetryDelay, TimeoutSeconds, Oversleeps;
    var asked := Ask(cfg, c, start);
    NothingMore(cfg, asked.0);
    Prepend(cfg, c, Asked(start), []);
    assert [Asked(start)] + [] == [Asked(start)];
    if asked.1 {
      var rest := Tries(cfg, asked.0, capability, start + TimeoutSeconds(capability), start, 0, None, turns);
      Prepend(cfg, c, Asked(start), rest.events);
      OnlyTry(cfg, asked.0, capability, start, turns);
    }
  }

  lemma TwoAttempts(cfg: Config, c: Circuit, capability: Capability, start: real, turns: nat -> Turn)
    requires Regranted(cfg, c, capability, start, turns)
    ensures Lawful(cfg, c, capability, start, turns, Play(cfg, c, capability, start, turns))
  {
    hide Ask, Tell, Pow2, Tries, Replay, Grants, Tells, ShouldRetry, RetryDelay, TimeoutSeconds;
    var asked := Ask(cfg, c, start);
    var deadline := start + TimeoutSeconds(capability);
    var rest := Tries(cfg, asked.0, capability, deadline, start, 0, None, turns);
    Prepend(cfg, c, Asked(start), rest.events);
    FirstTry(cfg, asked.0, capability, start, turns);
    SearchNeverRetries(capability, turns(0));
    var told := Tell(cfg, asked.0, AnsweredAt(start, turns), false);
    SecondTry(cfg, Ask(cfg, told, AgainAt(start, turns)).0, capability, deadline, AgainAt(start, turns), turns(0).attempt.kind, turns);
  }

  lemma SearchNeverRetries(capability: Capability, turn: Turn)
    ensures Retries(capability, turn) ==> capability != Search
  {
  }

  // ---------- leaks ----------

  /** Attempts whose exceptions are handled and a sleep that is no later than the check allowed for do not leak. */
  lemma PunctualCallsDoNotLeak(cfg: Config, c: Circuit, capability: Capability, start: real, turns: nat -> Turn)
    requires turns(0).Possible() && turns(0).overshoot <= turns(0).checkJitter
    requires turns(0).attempt != Escaped && turns(1).attempt != Escaped
    ensures !Leaks(cfg, c, capability, start, turns)
  {
    hide Ask, Tell, Pow2, RetryDelay, TimeoutSeconds;
    if Retries(capability, turns(0)) {
      BackoffLeavesBudget(turns(0).attempt.kind, capability, 0, TimeoutSeconds(capability) - turns(0).duration, turns(0));
    }
  }

  /** Two failures at once, the opening time, and an exception in the probe that follows. */
  const OPENED: seq<Event> := FailuresAtOnce(2)

  function EscapingTurn(i: nat): Turn {
    Turn(1.0, Escaped, 0.0, 0.0, 0.0)
  }

  /**
    Leaks happen: after two failures the first call is a probe, an exception that nobody handles leaks it, and
    from then on the capability is refused for as long as nothing is told.
   */
  lemma EscapeLeaks(capability: Capability, later: seq<Event>, j: nat)
    requires j < |later| && forall k | 0 <= k <= j :: later[k].Asked?
    ensures Leaks(DEFAULTS, Run(DEFAULTS, OPENED), capability, 120.0, EscapingTurn)
    ensures var events := Play(DEFAULTS, Run(DEFAULTS, OPENED), capability, 120.0, EscapingTurn).events;
      !Granted(DEFAULTS, OPENED + events + later, |OPENED + events| + j)
  {
    hide *;
    OpenedCircuit();
    ProbeEscapes(Run(DEFAULTS, OPENED), capability);
    LeakedProbeBlocks(DEFAULTS, OPENED, capability, 120.0, EscapingTurn, later, j);
  }

  lemma OpenedCircuit()
    ensures var c := Run(DEFAULTS, OPENED); c.openUntil == Some(120.0) && c.inflight == 0
    ensures DEFAULTS.halfOpenMax == 1
  {
    hide Run;
    FailuresOpen(DEFAULTS, 2);
  }

  lemma ProbeEscapes(c: Circuit, capability: Capability)
    requires c.openUntil == Some(120.0) && c.inflight == 0
    ensures Leaks(DEFAULTS, c, capability, 120.0, EscapingTurn)
    ensures Play(DEFAULTS, c, capability, 120.0, EscapingTurn).circuit.openUntil.Some?
  {
    hide Pruned, Tell, Pow2, Retries;
  }

  /** And a connection error on a closed circuit, when the sleep lasts half a minute too long. */
  lemma OversleepLeaks(capability: Capability)
    requires capability != Search
    ensures Leaks(DEFAULTS, CLOSED, capability, 0.0, _ => Turn(1.0, Failed(Connect), 0.0, 0.0, 30.0))
  {
    var turn := Turn(1.0, Failed(Connect), 0.0, 0.0, 30.0);
    assert RetryDelay(1, 0.0) == 0.05;
    assert Retries(capability, turn) && Oversleeps(capability, turn);
    StaysClosed(1.0);
    hide Tell, Pruned, RetryDelay, Retries, Oversleeps;
    var told := Tell(DEFAULTS, CLOSED, 1.0, false);
    assert Ask(DEFAULTS, CLOSED, 0.0) == (CLOSED, true) by {
      NothingPruned(0.0 - 300.0);
    }
  }

  lemma NothingPruned(cutoff: real)
    ensures Pruned([], cutoff) == []
  {
  }

  lemma StaysClosed(now: real)
    ensures Tell(DEFAULTS, CLOSED, now, false).openUntil == None
  {
    PrunedShorter(CLOSED.samples + [Sample(now, false)], now - DEFAULTS.windowSeconds);
    hide Pruned, ErrorRate;
  }

  lemma {:induction false} PrunedShorter(samples: seq<Sample>, cutoff: real)
    ensures |Pruned(samples, cutoff)| <= |samples|
  {
    if samples != [] && samples[0].at < cutoff {
      PrunedShorter(samples[1..], cutoff);
    }
  }

  lemma {:induction false} RunThen(cfg: Config, front: seq<Event>, events: seq<Event>)
    ensures Run(cfg, front + events) == Replay(cfg, Run(cfg, front), events)
    decreases |events|
  {
    if events == [] {
      assert front + events == front;
    } else {
      var longer := front + [events[0]];
      assert longer[..|front|] == front;
      assert longer + events[1..] == front + events;
      RunThen(cfg, longer, events[1..]);
    }
  }

  lemma {:induction false} ProbesCounted(cfg: Config, c: Circuit, events: seq<Event>)
    requires c.inflight >= 0
    ensures Replay(cfg, c, events).inflight >= 0
    decreases |events|
  {
    hide Pruned, ErrorRate;
    if events != [] {
      ProbesCounted(cfg, Step(cfg, c, events[0]), events[1..]);
    }
  }

  /** A leaked grant is the last thing the circuit was asked. */
  lemma LeakIsLast(cfg: Config, c: Circuit, capability: Capability, start: real, turns: nat -> Turn)
    requires Leaks(cfg, c, capability, start, turns)
    ensures var p := Play(cfg, c, capability, start, turns);
      && p.events != [] && p.events[|p.events| - 1].Asked?
      && var before := Replay(cfg, c, p.events[..|p.events| - 1]);
         Ask(cfg, before, p.events[|p.events| - 1].now) == (p.circuit, true) && p.circuit == Replay(cfg, c, p.events)
  {
    PlayIsLawful(cfg, c, capability, start, turns);
    LeakAsked(cfg, c, capability, start, turns);
    hide Play, Leaks, Ask, Replay, OutcomeLawful, Trace;
  }

  lemma LeakAsked(cfg: Config, c: Circuit, capability: Capability, start: real, turns: nat -> Turn)
    requires Leaks(cfg, c, capability, start, turns)
    ensures var p := Play(cfg, c, capability, start, turns);
      && p.events != [] && p.events[|p.events| - 1].Asked?
      && var before := Replay(cfg, c, p.events[..|p.events| - 1]);
         Ask(cfg, before, p.events[|p.events| - 1].now) == (p.circuit, true)
  {
    hide Ask, Tell, Pow2, Tries, ShouldRetry, RetryDelay, TimeoutSeconds;
    if turns(0).attempt == Escaped {
      OnlyTry(cfg, Ask(cfg, c, start).0, capability, start, turns);
      assert [Asked(start)] + [] == [Asked(start)] && [Asked(start)][..0] == [];
      NothingMore(cfg, c);
      NothingMore(cfg, Ask(cfg, c, start).0);
    } else {
      LeakedRetry(cfg, c, capability, start, turns);
      var events := [Asked(start), Told(AnsweredAt(start, turns), false), Asked(AgainAt(start, turns))];
      hide Replay, Step, Play, Regranted, Oversleeps;
      assert events[..2] == [events[0], events[1]];
      ReplayTwo(cfg, c, events[0], events[1]);
      assert Step(cfg, Step(cfg, c, events[0]), events[1]) == Tell(cfg, Ask(cfg, c, start).0, AnsweredAt(start, turns), false) by {
        StepIs(cfg, c, events[0]);
        StepIs(cfg, Step(cfg, c, events[0]), events[1]);
      }
    }
  }

  lemma StepIs(cfg: Config, c: Circuit, e: Event)
    ensures Step(cfg, c, e) == match e case Asked(now) => Ask(cfg, c, now).0 case Told(now, ok) => Tell(cfg, c, now, ok)
  {
  }

  lemma ReplayTwo(cfg: Config, c: Circuit, e: Event, f: Event)
    ensures Replay(cfg, c, [e, f]) == Step(cfg, Step(cfg, c, e), f)
  {
    hide Step;
    NothingMore(cfg, Step(cfg, Step(cfg, c, e), f));
    Prepend(cfg, Step(cfg, c, e), f, []);
    Prepend(cfg, c, e, [f]);
    assert [f] + [] == [f] && [e] + [f] == [e, f];
  }

  lemma LeakedRetry(cfg: Config, c: Circuit, capability: Capability, start: real, turns: nat -> Turn)
    requires Leaks(cfg, c, capability, start, turns) && turns(0).attempt != Escaped
    ensures var p := Play(cfg, c, capability, start, turns);
      var told := Tell(cfg, Ask(cfg, c, start).0, AnsweredAt(start, turns), false);
      && p.events == [Asked(start), Told(AnsweredAt(start, turns), false), Asked(AgainAt(start, turns))]
      && Ask(cfg, told, AgainAt(start, turns)) == (p.circuit, true)
  {
    hide Ask, Tell, Pow2, Tries, ShouldRetry, RetryDelay, TimeoutSeconds, Grants, Tells, Replay;
    var asked := Ask(cfg, c, start);
    var told := Tell(cfg, asked.0, AnsweredAt(start, turns), false);
    var next := Ask(cfg, told, AgainAt(start, turns)).0;
    FirstTry(cfg, asked.0, capability, start, turns);
    SecondTry(cfg, next, capability, start + TimeoutSeconds(capability), AgainAt(start, turns), turns(0).attempt.kind, turns);
    NothingMore(cfg, next);
    var rest := Tries(cfg, next, capability, start + TimeoutSeconds(capability), AgainAt(start, turns), 1, Some(turns(0).attempt.kind), turns);
    assert rest.events == [] && rest.circuit == next;
    var first := [Told(AnsweredAt(start, turns), false), Asked(AgainAt(start, turns))];
    assert first + [] == first && [Asked(start)] + first == [Asked(start), first[0], first[1]];
  }

  /**
    A leaked probe is for good: when the grant that a call leaks was a probe, no later call is let through,
    however much time passes, until something else is told to the circuit.
   */
  lemma LeakedProbeBlocks(cfg: Config, front: seq<Event>, capability: Capability, start: real, turns: nat -> Turn, later: seq<Event>, j: nat)
    requires cfg.halfOpenMax == 1 && Leaks(cfg, Run(cfg, front), capability, start, turns)
    requires Play(cfg, Run(cfg, front), capability, start, turns).circuit.openUntil.Some?
    requires j < |later| && forall k | 0 <= k <= j :: later[k].Asked?
    ensures var events := Play(cfg, Run(cfg, front), capability, start, turns).events;
      !Granted(cfg, front + events + later, |front + events| + j)
  {
    hide *;
    var p := Play(cfg, Run(cfg, front), capability, start, turns);
    LeakIsLast(cfg, Run(cfg, front), capability, start, turns);
    ProbeOut(cfg, front, p.events);
    BlockedFrom(cfg, front + p.events, later, j);
  }

  lemma ProbeOut(cfg: Config, front: seq<Event>, events: seq<Event>)
    requires events != [] && events[|events| - 1].Asked?
    requires Ask(cfg, Replay(cfg, Run(cfg, front), events[..|events| - 1]), events[|events| - 1].now).1
    requires Replay(cfg, Run(cfg, front), events).openUntil.Some?
    ensures Run(cfg, front + events).openUntil.Some? && Run(cfg, front + events).inflight >= 1
  {
    var n := |events| - 1;
    ProbesOut(cfg, front, events[..n]);
    LastReplayed(cfg, Run(cfg, front), events);
    RunThen(cfg, front, events);
    hide Replay, Run, Pruned;
  }

  lemma ProbesOut(cfg: Config, front: seq<Event>, events: seq<Event>)
    ensures Replay(cfg, Run(cfg, front), events).inflight >= 0
  {
    RunThen(cfg, [], front);
    assert [] + front == front && Run(cfg, []) == CLOSED;
    hide Run, Replay;
    ProbesCounted(cfg, CLOSED, front);
    ProbesCounted(cfg, Run(cfg, front), events);
  }

  lemma {:induction false} LastReplayed(cfg: Config, c: Circuit, events: seq<Event>)
    requires events != []
    ensures Replay(cfg, c, events) == Step(cfg, Replay(cfg, c, events[..|events| - 1]), events[|events| - 1])
    decreases |events|
  {
    hide Step;
    var n := |events| - 1;
    if n > 0 {
      LastReplayed(cfg, Step(cfg, c, events[0]), events[1..]);
      assert events[..n][1..] == events[1..][..n - 1];
    }
  }

  lemma BlockedFrom(cfg: Config, done: seq<Event>, later: seq<Event>, j: nat)
    requires cfg.halfOpenMax == 1 && done != [] && Run(cfg, done).openUntil.Some? && Run(cfg, done).inflight >= 1
    requires j < |later| && forall k | 0 <= k <= j :: later[k].Asked?
    ensures !Granted(cfg, done + later, |done| + j)
  {
    var all := done + later;
    assert all[..|done|] == done;
    forall k | |done| <= k <= |done| + j ensures all[k].Asked? {
      assert all[k] == later[k - |done|];
    }
    hide Run, Granted;
    SilentProbeBlocks(cfg, all, |done|, |done| + j);
  }

  // ---------- the loop ----------

  /** The whole call is what has happened so far and then the rest. */
  ghost predicate Continues(whole: Call, events: seq<Event>, rest: Call) {
    whole == rest.(events := events + rest.events)
  }

  lemma Ends(whole: Call, events: seq<Event>, rest: Call)
    requires Continues(whole, events, rest)
    ensures whole == Call(rest.outcome, rest.attempts, events + rest.events, rest.circuit)
  {
  }

  lemma GoesOn(whole: Call, events: seq<Event>, e: Event, rest: Call)
    requires Continues(whole, events, After(e, rest))
    ensures Continues(whole, events + [e], rest)
  {
    assert events + ([e] + rest.events) == events + [e] + rest.events;
  }

  /** How the attempts go on from the end of one. */
  function Answered(cfg: Config, c: Circuit, capability: Capability, deadline: real, now: real, used: nat, turns: nat -> Turn): Call
    requires used <= CONDITIONAL_RETRY_COUNT
  {
    match turns(used).attempt
    case Escaped => Call(Broken, used + 1, [], c)
    case Returned => Call(Output, used + 1, [Told(now, true)], Tell(cfg, c, now, true))
    case Failed(kind) =>
      if ShouldRetry(kind, capability, used, deadline - now, turns(used).checkJitter) then
        After(Told(now, false), Again(cfg, Tell(cfg, c, now, false), capability, deadline, now, used, kind, turns))
      else Call(Raised(kind), used + 1, [Told(now, false)], Tell(cfg, c, now, false))
  }

  /** And from the end of one that is to be retried. */
  function Again(cfg: Config, c: Circuit, capability: Capability, deadline: real, now: real, used: nat, kind: FailureKind, turns: nat -> Turn): Call
    requires used < CONDITIONAL_RETRY_COUNT
  {
    var again := now + RetryDelay(used + 1, turns(used).sleepJitter) + turns(used).overshoot;
    var asked := Ask(cfg, c, again);
    if asked.1 then After(Asked(again), Tries(cfg, asked.0, capability, deadline, again, used + 1, Some(kind), turns))
    else Call(Raised(kind), used + 1, [Asked(again)], asked.0)
  }

  lemma NextTry(cfg: Config, c: Circuit, capability: Capability, deadline: real, now: real, used: nat, last: Option<FailureKind>, turns: nat -> Turn)
    requires used <= CONDITIONAL_RETRY_COUNT
    ensures Tries(cfg, c, capability, deadline, now, used, last, turns)
         == if deadline - now <= 0.0 then Call(Expired(if last.Some? then last.value else Timeout), used, [], c)
            else Answered(cfg, c, capability, deadline, now + turns(used).duration, used, turns)
  {
    hide Ask, Tell, RetryDelay;
  }

  /**
    The loop: it makes the call that the function describes, and leaves every other circuit alone. So every
    grant is answered by exactly one record unless the call leaks.
   */
  method CompleteJson(circuits: CapabilityCircuits, capability: Capability, start: real, turns: nat -> Turn)
    returns (outcome: Outcome, attempts: nat, ghost events: seq<Event>)
    requires circuits.Valid()
    modifies circuits.Repr()
    ensures circuits.Valid() && fresh(circuits.Repr() - old(circuits.Repr()))
    ensures forall c | c != capability :: circuits.Of(c) == old(circuits.Of(c))
    ensures var p := Call(outcome, attempts, events, circuits.Of(capability));
      && p == Play(circuits.cfg, old(circuits.Of(capability)), capability, start, turns)
      && Lawful(circuits.cfg, old(circuits.Of(capability)), capability, start, turns, p)
  {
    hide Ask, Tell, Tries, Lawful, ShouldRetry, RetryDelay, TimeoutSeconds, Continues, Play, After;
    hide CapabilityCircuits.Valid, CapabilityCircuits.Of;
    ghost var cfg, first := circuits.cfg, circuits.Of(capability);
    ghost var whole := Play(cfg, first, capability, start, turns);
    PlayIsLawful(cfg, first, capability, start, turns);
    Begins(cfg, first, capability, start, turns);
    var now := start;
    var granted := circuits.Allow(capability, now);
    events := [Asked(now)];
    if !granted {
      return CircuitOpen, 0, events;
    }
    var deadline := now + TimeoutSeconds(capability);
    var retriesUsed := 0;
    var lastError: Option<FailureKind> := None;
    while true
      invariant circuits.Valid() && fresh(circuits.Repr() - old(circuits.Repr()))
      invariant forall c | c != capability :: circuits.Of(c) == old(circuits.Of(c))
      invariant retriesUsed <= CONDITIONAL_RETRY_COUNT
      invariant Continues(whole, events, Tries(cfg, circuits.Of(capability), capability, deadline, now, retriesUsed, lastError, turns))
      decreases CONDITIONAL_RETRY_COUNT - retriesUsed
    {
      NextTry(cfg, circuits.Of(capability), capability, deadline, now, retriesUsed, lastError, turns);
      var remaining := deadline - now;
      if remaining <= 0.0 {
        Ends(whole, events, Tries(cfg, circuits.Of(capability), capability, deadline, now, retriesUsed, lastError, turns));
        return Expired(if lastError.Some? then lastError.value else Timeout), retriesUsed, events + [];
      }
      var turn := turns(retriesUsed);
      now := now + turn.duration;
      ghost var rest := Answered(cfg, circuits.Of(capability), capability, deadline, now, retriesUsed, turns);
      match turn.attempt {
        case Escaped =>
          Ends(whole, events, rest);
          return Broken, retriesUsed + 1, events + [];
        case Returned =>
          circuits.Record(capability, now, true);
          Ends(whole, events, rest);
          return Output, retriesUsed + 1, events + [Told(now, true)];
        case Failed(kind) =>
          circuits.Record(capability, now, false);
          lastError := Some(kind);
          if !ShouldRetry(kind, capability, retriesUsed, deadline - now, turn.checkJitter) {
            Ends(whole, events, rest);
            return Raised(kind), retriesUsed + 1, events + [Told(now, false)];
          }
          RetriesLeft(kind, capability, retriesUsed, deadline - now, turn.checkJitter);
          rest := Again(cfg, circuits.Of(capability), capability, deadline, now, retriesUsed, kind, turns);
          GoesOn(whole, events, Told(now, false), rest);
          events := events + [Told(now, false)];
          retriesUsed := retriesUsed + 1;
          now := now + RetryDelay(retriesUsed, turn.sleepJitter) + turn.overshoot;
          granted := circuits.Allow(capability, now);
          if !granted {
            Ends(whole, events, rest);
            return Raised(kind), retriesUsed, events + [Asked(now)];
          }
          GoesOn(whole, events, Asked(now), Tries(cfg, circuits.Of(capability), capability, deadline, now, retriesUsed, lastError, turns));
          events := events + [Asked(now)];
      }
    }
  }

  lemma Begins(cfg: Config, c: Circuit, capability: Capability, start: real, turns: nat -> Turn)
    ensures var asked, whole := Ask(cfg, c, start), Play(cfg, c, capability, start, turns);
      if asked.1 then
        Continues(whole, [Asked(start)], Tries(cfg, asked.0, capability, start + TimeoutSeconds(capability), start, 0, None, turns))
      else whole == Call(CircuitOpen, 0, [Asked(start)], asked.0)
  {
    hide Ask, Tries, TimeoutSeconds;
  }

  lemma RetriesLeft(kind: FailureKind, capability: Capability, used: nat, remaining: real, jitter: real)
    requires ShouldRetry(kind, capability, used, remaining, jitter)
    ensures used < CONDITIONAL_RETRY_COUNT
  {
  }

  // ---------- when there is a second attempt ----------

  /** A failure that may pass: no connection, too many requests, or a fault of the server. */
  predicate MayPass(attempt: Attempt) {
    attempt == Failed(Connect) || attempt == Failed(Http429) || attempt == Failed(Http5xx)
  }

  /**
    The second attempt, spelled out: the circuit grants the call, the first attempt fails in a way that may
    pass, it is no search, the time left exceeds the delay by the margin, the circuit grants the call again
    after the sleep, and attempt and sleep end before the deadline.
   */
  lemma SecondAttemptIff(cfg: Config, c: Circuit, capability: Capability, start: real, turns: nat -> Turn)
    ensures var first := turns(0);
      var again := start + first.duration + 0.05 + first.sleepJitter + first.overshoot;
      Play(cfg, c, capability, start, turns).attempts == 2 <==>
        && Ask(cfg, c, start).1
        && MayPass(first.attempt) && capability != Search
        && TimeoutSeconds(capability) - first.duration > 0.05 + first.checkJitter + 0.05
        && Ask(cfg, Tell(cfg, Ask(cfg, c, start).0, start + first.duration, false), again).1
        && again < start + TimeoutSeconds(capability)
  {
    PlayIsLawful(cfg, c, capability, start, turns);
    assert Pow2(0) == 1.0;
    hide Play, Ask, Tell, TimeoutSeconds, Trace, Replay, Grants, Tells, Leaks;
    assert RetryDelay(1, turns(0).sleepJitter) == 0.05 + turns(0).sleepJitter;
    assert AgainAt(start, turns) == start + turns(0).duration + 0.05 + turns(0).sleepJitter + turns(0).overshoot;
    hide OutcomeLawful;
  }
}
