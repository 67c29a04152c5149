/**
  What whole runs of quota steps keep. A run starts from the empty table; its clock never goes back;
  every call may name any zone.
 */
module QuotaRuns {
  import opened Common
  import opened Days
  import opened Quota

  datatype Step =
    | Consume(call: Call)
    | Adjust(key: Key, amount: int, now: int, mode: Mode)
  {
    function Now(): int {
      match this
      case Consume(call) => call.now
      case Adjust(_, _, now, _) => now
    }
  }

  datatype Kind = Consumed | Reserved | Released | Committed

  /** One successful change of a counter. */
  datatype Entry = Entry(kind: Kind, key: Key, amount: int, now: int)

  datatype World = World(table: Table, log: seq<Entry>)

  function EffectOf(t: Table, step: Step): Effect {
    match step
    case Consume(call) => ConsumeEffect(t, call)
    case Adjust(key, amount, _, mode) => AdjustEffect(t, key, amount, mode)
  }

  function KindOf(step: Step): Kind {
    match step
    case Consume(_) => Consumed
    case Adjust(_, _, _, mode) => if mode == Reserve then Reserved else if mode == Release then Released else Committed
  }

  function AmountOf(step: Step): int {
    if step.Consume? then step.call.amount else step.amount
  }

  function After(w: World, step: Step): World {
    var effect := EffectOf(w.table, step);
    World(effect.table,
          if effect.outcome.Done?
          then w.log + [Entry(KindOf(step), effect.outcome.key, AmountOf(step), step.Now())]
          else w.log)
  }

  function Run(steps: seq<Step>): World {
    if steps == [] then World(map[], [])
    else After(Run(steps[..|steps| - 1]), steps[|steps| - 1])
  }

  predicate Monotone(steps: seq<Step>) {
    forall i, j | 0 <= i <= j < |steps| :: steps[i].Now() <= steps[j].Now()
  }

  function Total(log: seq<Entry>, kind: Kind, key: Key): int {
    if log == [] then 0
    else
      var last := log[|log| - 1];
      Total(log[..|log| - 1], kind, key) + if last.kind == kind && last.key == key then last.amount else 0
  }

  /** Units consumed for one user and capability on dates lo..hi, at instants t0..t1. */
  function Charged(log: seq<Entry>, user: nat, capability: Capability, t0: int, t1: int, lo: int, hi: int): int {
    if log == [] then 0
    else
      var last := log[|log| - 1];
      Charged(log[..|log| - 1], user, capability, t0, t1, lo, hi)
      + if last.kind == Consumed && last.key.user == user && last.key.capability == capability
           && t0 <= last.now <= t1 && lo <= last.key.date <= hi then last.amount else 0
  }

  // ---------- conservation ----------

  /** The counters of a row are exactly what the successful steps put there. */
  predicate RowConserved(row: UsageRow, log: seq<Entry>, k: Key) {
    && row.used == Total(log, Consumed, k) + Total(log, Committed, k)
    && row.reserved == Total(log, Reserved, k) - Total(log, Released, k) - Total(log, Committed, k)
  }

  predicate EntriesHaveRows(w: World) {
    forall i | 0 <= i < |w.log| :: w.log[i].key in w.table && w.log[i].amount >= 1
  }

  predicate Conserved(w: World) {
    && RowsSound(w.table)
    && EntriesHaveRows(w)
    && forall k | k in w.table :: RowConserved(w.table[k], w.log, k)
  }

  lemma {:induction false} NoEntryNoTotal(log: seq<Entry>, kind: Kind, key: Key)
    requires forall i | 0 <= i < |log| :: log[i].key != key
    ensures Total(log, kind, key) == 0
  {
    if log != [] {
      NoEntryNoTotal(log[..|log| - 1], kind, key);
    }
  }

  lemma AppendTotal(log: seq<Entry>, e: Entry, kind: Kind, key: Key)
    ensures Total(log + [e], kind, key) == Total(log, kind, key) + if e.kind == kind && e.key == key then e.amount else 0
  {
    assert (log + [e])[..|log|] == log;
  }

  lemma NothingLogged(log: seq<Entry>, k: Key)
    requires forall i | 0 <= i < |log| :: log[i].key != k
    ensures forall kind :: Total(log, kind, k) == 0
  {
    forall kind ensures Total(log, kind, k) == 0 {
      NoEntryNoTotal(log, kind, k);
    }
  }

  lemma EveryTotal(log: seq<Entry>, e: Entry, k: Key)
    ensures forall kind :: Total(log + [e], kind, k) == Total(log, kind, k) + if e.kind == kind && e.key == k then e.amount else 0
  {
    forall kind ensures Total(log + [e], kind, k) == Total(log, kind, k) + if e.kind == kind && e.key == k then e.amount else 0 {
      AppendTotal(log, e, kind, k);
    }
  }

  lemma StepConservesRow(w: World, step: Step, k: Key)
    requires EntriesHaveRows(w)
    requires k in w.table ==> RowConserved(w.table[k], w.log, k)
    requires k in After(w, step).table
    ensures RowConserved(After(w, step).table[k], After(w, step).log, k)
  {
    hide Total;
    if k !in w.table {
      NothingLogged(w.log, k);
    }
    if EffectOf(w.table, step).outcome.Done? {
      EveryTotal(w.log, Entry(KindOf(step), EffectOf(w.table, step).outcome.key, AmountOf(step), step.Now()), k);
    }
  }

  lemma StepKeepsRowsSound(t: Table, step: Step)
    requires RowsSound(t)
    ensures RowsSound(EffectOf(t, step).table)
  {
  }

  lemma StepKeepsEntries(w: World, step: Step)
    requires EntriesHaveRows(w)
    ensures EntriesHaveRows(After(w, step))
  {
    var effect := EffectOf(w.table, step);
    assert forall k | k in w.table :: k in effect.table;
    assert effect.outcome.Done? ==> effect.outcome.key in effect.table && AmountOf(step) >= 1;
  }

  lemma StepConserves(w: World, step: Step)
    requires Conserved(w)
    ensures Conserved(After(w, step))
  {
    StepKeepsRowsSound(w.table, step);
    StepKeepsEntries(w, step);
    forall k | k in After(w, step).table
      ensures RowConserved(After(w, step).table[k], After(w, step).log, k)
    {
      StepConservesRow(w, step, k);
    }
  }

  lemma {:induction false} LedgerConserved(steps: seq<Step>)
    ensures Conserved(Run(steps))
  {
    if steps != [] {
      LedgerConserved(steps[..|steps| - 1]);
      StepConserves(Run(steps[..|steps| - 1]), steps[|steps| - 1]);
    }
  }

  /** A step that is refused or raises leaves every counter as it was; at most it adds an empty row. */
  lemma RefusalChangesNoCounter(t: Table, step: Step)
    requires !EffectOf(t, step).outcome.Done?
    ensures var t' := EffectOf(t, step).table;
            && (forall k | k in t :: k in t' && t'[k] == t[k])
            && (forall k | k in t' && k !in t :: t'[k].used == 0 && t'[k].reserved == 0)
  {
  }

  // ---------- zones ----------

  /** At most one open row for each user and capability. */
  predicate OneOpen(t: Table, now: int) {
    forall k, l | k in t && l in t && k.user == l.user && k.capability == l.capability
                  && IsOpen(k, t[k], now) && IsOpen(l, t[l], now) :: k == l
  }

  predicate NoLaterThan(t: Table, date: int) {
    forall k | k in t :: k.date <= date
  }

  lemma StepKeepsOneOpen(t: Table, step: Step, before: int)
    requires OneOpen(t, before) && before <= step.Now()
    ensures OneOpen(EffectOf(t, step).table, step.Now())
  {
    assert OneOpen(t, step.Now());
    if step.Consume? {
      var call := step.call;
      if OpenDates(t, call.user, call.capability, call.now) == {} {
        forall k | k in t && k.user == call.user && k.capability == call.capability
          ensures !IsOpen(k, t[k], call.now)
        {
          assert k.date !in OpenDates(t, call.user, call.capability, call.now);
        }
      }
    }
  }

  lemma LocalDateMonotone(s: int, a: Offset, t: int, b: Offset)
    requires s + a <= t + b
    ensures LocalDate(s, a) <= LocalDate(t, b)
  {
  }

  lemma {:induction false} DatesNoLaterThan(steps: seq<Step>, now: int)
    requires Monotone(steps)
    requires steps != [] ==> steps[|steps| - 1].Now() <= now
    ensures NoLaterThan(Run(steps).table, LocalDate(now, EAST))
  {
    if steps != [] {
      var front, last := steps[..|steps| - 1], steps[|steps| - 1];
      DatesNoLaterThan(front, now);
      if last.Consume? {
        LocalDateMonotone(last.call.now, CoerceTimezone(last.call.timezone), now, EAST);
      }
    }
  }

  /** Wherever the caller claims to be, a charge lands between the dates of the two extreme zones. */
  lemma ChargeDateInRange(steps: seq<Step>, call: Call)
    requires Monotone(steps + [Consume(call)])
    requires ConsumeEffect(Run(steps).table, call).outcome.Done?
    ensures LocalDate(call.now, WEST) <= ConsumeEffect(Run(steps).table, call).outcome.key.date <= LocalDate(call.now, EAST)
  {
    var all := steps + [Consume(call)];
    assert forall i | 0 <= i < |steps| :: all[i] == steps[i];
    assert all[|steps|] == Consume(call);
    DatesNoLaterThan(steps, call.now);
    var zone := CoerceTimezone(call.timezone);
    LocalDateMonotone(call.now, WEST, call.now, zone);
    LocalDateMonotone(call.now, zone, call.now, EAST);
  }

  /**
    When a call opens a fresh day: exactly when no row is open and the date its zone shows has no row yet.
    While a row is open, the zone that is sent changes nothing at all.
   */
  lemma FreshDayIff(t: Table, call: Call)
    requires call.amount >= 1 && LimitOf(call) >= 0
    ensures ConsumeEffect(t, call).table.Keys != t.Keys
       <==> OpenDates(t, call.user, call.capability, call.now) == {}
            && Key(call.user, LocalDate(call.now, CoerceTimezone(call.timezone)), call.capability) !in t
    ensures OpenDates(t, call.user, call.capability, call.now) != {} ==>
              forall zone :: ConsumeEffect(t, call.(timezone := zone)) == ConsumeEffect(t, call)
  {
  }

  // ---------- how much a run can consume ----------

  predicate LimitsWithin(t: Table, user: nat, capability: Capability, limit: int) {
    forall k | k in t && k.user == user && k.capability == capability :: t[k].limit <= limit
  }

  /** No call for this user and capability asks for a larger limit. */
  predicate CallsWithin(steps: seq<Step>, user: nat, capability: Capability, limit: int) {
    forall i | 0 <= i < |steps| && steps[i].Consume? ::
      steps[i].call.user == user && steps[i].call.capability == capability ==> LimitOf(steps[i].call) <= limit
  }

  predicate ChargesDated(log: seq<Entry>) {
    forall i | 0 <= i < |log| && log[i].kind == Consumed ::
      LocalDate(log[i].now, WEST) <= log[i].key.date <= LocalDate(log[i].now, EAST)
  }

  lemma {:induction false} ChargedSplit(log: seq<Entry>, user: nat, capability: Capability, t0: int, t1: int, lo: int, hi: int)
    requires lo <= hi
    ensures Charged(log, user, capability, t0, t1, lo, hi)
         == Charged(log, user, capability, t0, t1, lo, hi - 1) + Charged(log, user, capability, t0, t1, hi, hi)
  {
    if log != [] {
      ChargedSplit(log[..|log| - 1], user, capability, t0, t1, lo, hi);
    }
  }

  lemma {:induction false} ChargedOnDate(log: seq<Entry>, user: nat, capability: Capability, t0: int, t1: int, date: int)
    requires forall i | 0 <= i < |log| :: log[i].amount >= 1
    ensures Charged(log, user, capability, t0, t1, date, date) <= Total(log, Consumed, Key(user, date, capability))
    ensures 0 <= Total(log, Committed, Key(user, date, capability))
  {
    if log != [] {
      ChargedOnDate(log[..|log| - 1], user, capability, t0, t1, date);
    }
  }

  lemma {:induction false} ChargedNowhere(log: seq<Entry>, user: nat, capability: Capability, t0: int, t1: int, lo: int, hi: int)
    requires hi < lo
    ensures Charged(log, user, capability, t0, t1, lo, hi) == 0
  {
    if log != [] {
      ChargedNowhere(log[..|log| - 1], user, capability, t0, t1, lo, hi);
    }
  }

  lemma {:induction false} ChargedOverDates(w: World, user: nat, capability: Capability, limit: int, t0: int, t1: int, lo: int, hi: int)
    requires Conserved(w) && 0 <= limit && LimitsWithin(w.table, user, capability, limit)
    requires lo <= hi + 1
    ensures Charged(w.log, user, capability, t0, t1, lo, hi) <= limit * (hi - lo + 1)
    decreases hi - lo + 1
  {
    if hi < lo {
      ChargedNowhere(w.log, user, capability, t0, t1, lo, hi);
    } else {
      ChargedSplit(w.log, user, capability, t0, t1, lo, hi);
      ChargedOverDates(w, user, capability, limit, t0, t1, lo, hi - 1);
      ChargedOnDate(w.log, user, capability, t0, t1, hi);
      var k := Key(user, hi, capability);
      if k in w.table {
        assert RowConserved(w.table[k], w.log, k);
      } else {
        NoEntryNoTotal(w.log, Consumed, k);
      }
      assert limit * (hi - lo + 1) == limit * (hi - 1 - lo + 1) + limit;
    }
  }

  /** Units consumed at instants t0..t1, on whatever date they were booked. */
  function ChargedWithin(log: seq<Entry>, user: nat, capability: Capability, t0: int, t1: int): int {
    if log == [] then 0
    else
      var last := log[|log| - 1];
      ChargedWithin(log[..|log| - 1], user, capability, t0, t1)
      + if last.kind == Consumed && last.key.user == user && last.key.capability == capability
           && t0 <= last.now <= t1 then last.amount else 0
  }

  lemma {:induction false} ChargedWithinItsDates(log: seq<Entry>, user: nat, capability: Capability, t0: int, t1: int)
    requires ChargesDated(log)
    ensures ChargedWithin(log, user, capability, t0, t1)
         == Charged(log, user, capability, t0, t1, LocalDate(t0, WEST), LocalDate(t1, EAST))
  {
    if log != [] {
      var front, last := log[..|log| - 1], log[|log| - 1];
      assert ChargesDated(front);
      ChargedWithinItsDates(front, user, capability, t0, t1);
      assert log[|log| - 1] == last;
      if t0 <= last.now <= t1 {
        LocalDateMonotone(t0, WEST, last.now, WEST);
        LocalDateMonotone(last.now, EAST, t1, EAST);
      }
    }
  }

  const HOP_START: int := 35_999_999_999
  const HOP_END: int := 43_200_000_000

  /** Use a whole limit just before the eastmost day closes, hop west a tick later, and east two hours on. */
  function HopRun(user: nat, capability: Capability): seq<Step> {
    var limit := DailyLimit(capability);
    [Consume(Call(user, capability, HOP_START, Known(EAST), limit, None)),
     Consume(Call(user, capability, HOP_START + 1, Known(WEST), limit, None)),
     Consume(Call(user, capability, HOP_END, Known(EAST), limit, None))]
  }

  function HopLog(user: nat, capability: Capability): seq<Entry> {
    var limit := DailyLimit(capability);
    [Entry(Consumed, Key(user, 0, capability), limit, HOP_START),
     Entry(Consumed, Key(user, -1, capability), limit, HOP_START + 1),
     Entry(Consumed, Key(user, 1, capability), limit, HOP_END)]
  }

  lemma HopRunLog(user: nat, capability: Capability)
    ensures Run(HopRun(user, capability)).log == HopLog(user, capability)
  {
    hide ConsumeEffect, DailyLimit;
    var run, log, limit := HopRun(user, capability), HopLog(user, capability), DailyLimit(capability);
    RunSnoc([], run[0]);
    FirstUse(map[], run[0].call, 0);
    assert Run([run[0]]) == World(map[Key(user, 0, capability) := UsageRow(EAST, limit, 0, limit, 2)], [log[0]]);
    RunSnoc([run[0]], run[1]);
    FirstUse(Run([run[0]]).table, run[1].call, -1);
    RunSnoc([run[0], run[1]], run[2]);
    FirstUse(Run([run[0], run[1]]).table, run[2].call, 1);
    assert [run[0], run[1]] + [run[2]] == run;
  }

  lemma HopLogTotal(user: nat, capability: Capability)
    ensures ChargedWithin(HopLog(user, capability), user, capability, HOP_START, HOP_END) == 3 * DailyLimit(capability)
  {
    var log := HopLog(user, capability);
    var one, two := [log[0]], [log[0], log[1]];
    assert one[..0] == [] && two[..1] == one && log[..2] == two;
    assert ChargedWithin(one, user, capability, HOP_START, HOP_END) == DailyLimit(capability);
    assert ChargedWithin(two, user, capability, HOP_START, HOP_END) == 2 * DailyLimit(capability);
  }

  /**
    The bound is reached: three calls within two hours, each from another zone, get three whole limits.
    So a hop made just after a row has closed does mint another day.
   */
  lemma HoppingReachesTheBound(user: nat, capability: Capability)
    ensures var limit, run := DailyLimit(capability), HopRun(user, capability);
            && Monotone(run) && CallsWithin(run, user, capability, limit)
            && HOP_END - HOP_START <= 2 * HOUR + 1
            && ChargedWithin(Run(run).log, user, capability, HOP_START, HOP_END) == 3 * limit
            && LocalDate(HOP_END, EAST) - LocalDate(HOP_START, WEST) + 1 == 3
  {
    HopRunLog(user, capability);
    HopLogTotal(user, capability);
    assert LocalDate(HOP_END, EAST) == 1;
    assert LocalDate(HOP_START, WEST) == -1;
  }

  lemma RunSnoc(front: seq<Step>, step: Step)
    ensures Run(front + [step]) == After(Run(front), step)
  {
    assert (front + [step])[..|front|] == front;
  }

  lemma FirstUse(t: Table, call: Call, date: int)
    requires call.timezone.Known? && LocalDate(call.now, call.timezone.offset) == date
    requires call.limit.None? && call.amount == DailyLimit(call.capability)
    requires forall k | k in t :: !IsOpen(k, t[k], call.now)
    requires Key(call.user, date, call.capability) !in t
    ensures var k := Key(call.user, date, call.capability);
            var row := UsageRow(call.timezone.offset, call.amount, 0, call.amount, 2);
            ConsumeEffect(t, call) == Effect(t[k := row], Done(k, row))
  {
    assert OpenDates(t, call.user, call.capability, call.now) == {};
  }

  /** A caller who stays in one zone is charged on the local date of that zone, always. */
  lemma {:induction false} FixedZoneKeepsLocalDate(steps: seq<Step>, call: Call)
    requires Monotone(steps + [Consume(call)])
    requires forall i | 0 <= i < |steps| && steps[i].Consume? ::
               CoerceTimezone(steps[i].call.timezone) == CoerceTimezone(call.timezone)
    requires ConsumeEffect(Run(steps).table, call).outcome.Done?
    ensures ConsumeEffect(Run(steps).table, call).outcome.key.date == LocalDate(call.now, CoerceTimezone(call.timezone))
  {
    var zone := CoerceTimezone(call.timezone);
    var all := steps + [Consume(call)];
    assert forall i | 0 <= i < |steps| :: all[i] == steps[i];
    assert all[|steps|] == Consume(call);
    AllRowsInZone(steps, zone, call.now);
    var open := OpenDates(Run(steps).table, call.user, call.capability, call.now);
    if open != {} {
      var w := ResolveWindow(Run(steps).table, call.user, call.capability, call.now, call.timezone);
      var k := Key(call.user, w.date, call.capability);
      assert k in Run(steps).table;
    }
  }

  lemma {:induction false} AllRowsInZone(steps: seq<Step>, zone: Offset, now: int)
    requires Monotone(steps)
    requires steps != [] ==> steps[|steps| - 1].Now() <= now
    requires forall i | 0 <= i < |steps| && steps[i].Consume? :: CoerceTimezone(steps[i].call.timezone) == zone
    ensures forall k | k in Run(steps).table ::
              Run(steps).table[k].timezone == zone && k.date <= LocalDate(now, zone)
  {
    if steps != [] {
      var front, last := steps[..|steps| - 1], steps[|steps| - 1];
      AllRowsInZone(front, zone, now);
      assert steps[|steps| - 1] == last;
      LocalDateMonotone(last.Now(), zone, now, zone);
    }
  }
}
