/**
  Runs of the quota services: calls that consume at once, mixed with reservations, their commits and
  releases, and the expiry worker. Rows are opened by consuming and by reserving, in any zone.
 */
module ServiceRuns {
  import opened Common
  import opened Days
  import opened Quota
  import opened Reservations
  import Q = QuotaRuns

  /**
    A refused consumption raises, which undoes the row it opened unless its caller handles the error. A commit
    names the instant at which its ticket was issued.
   */
  datatype Step =
    | Consuming(call: Call, handled: bool)
    | Reserving(request: Request)
    | Committing(ticket: Ticket, issuedAt: int, now: int)
    | Releasing(ticket: Ticket, now: int)
    | Claiming(now: int, picked: set<nat>)
    | TakingBack(ticket: Ticket, now: int)
  {
    function Now(): int {
      match this
      case Consuming(call, _) => call.now
      case Reserving(request) => request.now
      case Committing(_, _, now) => now
      case Releasing(_, now) => now
      case Claiming(now, _) => now
      case TakingBack(_, now) => now
    }
  }

  /** Units were reserved on a row at an instant. */
  datatype Issue = Issue(key: Key, at: int)

  /**
    The tables; the log of counter changes, where a commit releases what was reserved and consumes it as of
    the instant of its issue; and what has been issued.
   */
  datatype World = World(ledger: Ledger, log: seq<Q.Entry>, issued: set<Issue>)

  const EMPTY: World := World(Ledger(map[], []), [], {})

  /** The hold that the request's source already has, when it is stale and still has units reserved. */
  predicate Stale(l: Ledger, found: Option<nat>) {
    found.Some? && found.value < |l.holds| && l.holds[found.value].Live()
  }

  function StaleEntries(l: Ledger, found: Option<nat>, now: int): seq<Q.Entry> {
    if Stale(l, found) then
      var h := l.holds[found.value];
      if AdjustEffect(l.rows, h.On(), h.amount, Release).outcome.Done? then [Q.Entry(Q.Released, h.On(), h.amount, now)] else []
    else []
  }

  /** The request places a new hold, rather than being refused or given the one its source has. */
  predicate Opens(l: Ledger, r: Request) {
    var found := Find(l.holds, r.user, r.capability, r.source);
    && ReserveEffect(l, r).result.Issued?
    && !(found.Some? && (l.holds[found.value].status == Status.Committed
                         || (l.holds[found.value].status == Held && l.holds[found.value].expiresAt > r.now)))
  }

  function AfterReserving(w: World, r: Request): World {
    var reply := ReserveEffect(w.ledger, r);
    if Opens(w.ledger, r) then
      World(
        reply.ledger,
        w.log + StaleEntries(w.ledger, Find(w.ledger.holds, r.user, r.capability, r.source), r.now)
          + [Q.Entry(Q.Reserved, reply.result.ticket.key, r.amount, r.now)],
        w.issued + {Issue(reply.result.ticket.key, r.now)})
    else w.(ledger := reply.ledger)
  }

  function AfterConsuming(w: World, call: Call, handled: bool): World {
    var effect := ConsumeEffect(w.ledger.rows, call);
    if effect.outcome.Done? then
      w.(ledger := Ledger(effect.table, w.ledger.holds), log := w.log + [Q.Entry(Q.Consumed, effect.outcome.key, call.amount, call.now)])
    else if handled then w.(ledger := Ledger(effect.table, w.ledger.holds))
    else w
  }

  function AfterCommitting(w: World, t: Ticket, issuedAt: int, now: int): World {
    if t.status != Status.Committed && AdjustEffect(w.ledger.rows, t.key, t.amount, Mode.Commit).outcome.Done? then
      w.(ledger := CommitEffect(w.ledger, t).ledger,
         log := w.log + [Q.Entry(Q.Released, t.key, t.amount, now)] + [Q.Entry(Q.Consumed, t.key, t.amount, issuedAt)])
    else w
  }

  function AfterTakingBack(w: World, t: Ticket, now: int): World {
    w.(ledger := ExpireEffect(w.ledger, t).ledger,
       log := w.log + if AdjustEffect(w.ledger.rows, t.key, t.amount, Release).outcome.Done?
                      then [Q.Entry(Q.Released, t.key, t.amount, now)] else [])
  }

  function After(w: World, step: Step): World {
    match step
    case Consuming(call, handled) => AfterConsuming(w, call, handled)
    case Reserving(r) => AfterReserving(w, r)
    case Committing(t, issuedAt, now) => AfterCommitting(w, t, issuedAt, now)
    case Releasing(t, now) => if t.status == Status.Committed || t.status == Status.Released then w else AfterTakingBack(w, t, now)
    case Claiming(now, picked) => w.(ledger := ClaimEffect(w.ledger, now, picked))
    case TakingBack(t, now) => AfterTakingBack(w, t, now)
  }

  function Run(steps: seq<Step>): World {
    if steps == [] then EMPTY else After(Run(steps[..|steps| - 1]), steps[|steps| - 1])
  }

  predicate Monotone(steps: seq<Step>) {
    forall i, j | 0 <= i <= j < |steps| :: steps[i].Now() <= steps[j].Now()
  }

  /** Only tickets that were issued are committed. */
  predicate Honest(steps: seq<Step>) {
    forall i | 0 <= i < |steps| && steps[i].Committing? ::
      Issue(steps[i].ticket.key, steps[i].issuedAt) in Run(steps[..i]).issued
  }

  /** The steps on the tables are those of the services. */
  lemma StepsAreTheServices(w: World, step: Step)
    ensures match step
      case Consuming(call, handled) =>
        var effect := ConsumeEffect(w.ledger.rows, call);
        After(w, step).ledger == if effect.outcome.Done? || handled then Ledger(effect.table, w.ledger.holds) else w.ledger
      case Reserving(r) => After(w, step).ledger == Reservations.After(w.ledger, Action.Reserving(r))
      case Committing(t, _, _) => After(w, step).ledger == Reservations.After(w.ledger, Action.Committing(t))
      case Releasing(t, _) => After(w, step).ledger == Reservations.After(w.ledger, Action.Releasing(t))
      case Claiming(now, picked) => After(w, step).ledger == Reservations.After(w.ledger, Action.Claiming(now, picked))
      case TakingBack(t, _) => After(w, step).ledger == Reservations.After(w.ledger, Action.TakingBack(t))
  {
    hide ConsumeEffect, OpenHold, DropStale, Find, Mark, ClaimEffect;
  }

  // ---------- open rows ----------

  /** What a step may do to the rows as a whole: every row stays, its zone with it. */
  predicate RowsKept(t: Table, t': Table) {
    forall k | k in t :: k in t' && t'[k].timezone == t[k].timezone && t'[k].limit == t[k].limit
  }

  /** At most one row is new: that of the window which was resolved, in its zone. */
  predicate OnlyWindowAdded(t: Table, t': Table, user: nat, capability: Capability, now: int, timezone: Timezone, limit: int) {
    && RowsKept(t, t')
    && forall k | k in t' && k !in t ::
         && OpenDates(t, user, capability, now) == {}
         && k == Key(user, LocalDate(now, CoerceTimezone(timezone)), capability)
         && t'[k].timezone == CoerceTimezone(timezone) && t'[k].limit == limit
  }

  lemma SameOpenDates(t: Table, t': Table, user: nat, capability: Capability, now: int)
    requires t.Keys == t'.Keys && RowsKept(t, t')
    ensures OpenDates(t, user, capability, now) == OpenDates(t', user, capability, now)
  {
  }

  lemma ConsumeAdds(t: Table, call: Call)
    ensures OnlyWindowAdded(t, ConsumeEffect(t, call).table, call.user, call.capability, call.now, call.timezone, LimitOf(call))
  {
  }

  lemma AdjustKeeps(t: Table, k: Key, amount: int, mode: Mode)
    ensures AdjustEffect(t, k, amount, mode).table.Keys == t.Keys && RowsKept(t, AdjustEffect(t, k, amount, mode).table)
  {
  }

  lemma ReserveAdds(l: Ledger, r: Request)
    ensures OnlyWindowAdded(l.rows, ReserveEffect(l, r).ledger.rows, r.user, r.capability, r.now, r.timezone, RequestLimit(r))
    ensures Opens(l, r) ==>
      var k := ReserveEffect(l, r).result.ticket.key;
      && k.user == r.user && k.capability == r.capability && k in ReserveEffect(l, r).ledger.rows
      && (k.date in OpenDates(l.rows, r.user, r.capability, r.now) || k.date == LocalDate(r.now, CoerceTimezone(r.timezone)))
  {
    var found := Find(l.holds, r.user, r.capability, r.source);
    DropKeeps(l, found);
    SameOpenDates(l.rows, DropStale(l, found).rows, r.user, r.capability, r.now);
    OpenHoldAdds(DropStale(l, found), found, r);
    hide OpenDates, DropStale, Find, OpenHold, LocalDate;
  }

  lemma DropKeeps(l: Ledger, found: Option<nat>)
    ensures DropStale(l, found).rows.Keys == l.rows.Keys && RowsKept(l.rows, DropStale(l, found).rows)
  {
    if Stale(l, found) {
      AdjustKeeps(l.rows, l.holds[found.value].On(), l.holds[found.value].amount, Release);
    }
  }

  lemma OpenHoldAdds(l: Ledger, found: Option<nat>, r: Request)
    ensures var e := OpenHold(l, found, r);
      && OnlyWindowAdded(l.rows, e.ledger.rows, r.user, r.capability, r.now, r.timezone, RequestLimit(r))
      && (e.result.Issued? || e.result.Exceeded?)
      && (e.result.Issued? ==>
            var k := e.result.ticket.key;
            && k.user == r.user && k.capability == r.capability && k in e.ledger.rows
            && (k.date in OpenDates(l.rows, r.user, r.capability, r.now) || k.date == LocalDate(r.now, CoerceTimezone(r.timezone))))
  {
    hide OpenDates, AdjustEffect, LocalDate;
    var w := ResolveWindow(l.rows, r.user, r.capability, r.now, r.timezone);
    var k := Key(r.user, w.date, r.capability);
    AdjustKeeps(EnsureRow(l.rows, k, w.zone, RequestLimit(r)), k, r.amount, Mode.Reserve);
    WindowDate(l.rows, r);
  }

  lemma WindowDate(t: Table, r: Request)
    ensures var w := ResolveWindow(t, r.user, r.capability, r.now, r.timezone);
      w.date in OpenDates(t, r.user, r.capability, r.now) || w.date == LocalDate(r.now, CoerceTimezone(r.timezone))
  {
  }

  /** The rows change as if by one window at most; a claim for whom it is does not matter when nothing is added. */
  lemma StepAdds(w: World, step: Step) returns (user: nat, capability: Capability, timezone: Timezone, limit: int)
    ensures OnlyWindowAdded(w.ledger.rows, After(w, step).ledger.rows, user, capability, step.Now(), timezone, limit)
    ensures step.Consuming? ==> (user, capability, limit) == (step.call.user, step.call.capability, LimitOf(step.call))
    ensures step.Reserving? ==> (user, capability, limit) == (step.request.user, step.request.capability, RequestLimit(step.request))
    ensures !step.Consuming? && !step.Reserving? ==> After(w, step).ledger.rows.Keys == w.ledger.rows.Keys
  {
    user, capability, timezone, limit := 0, Chat, Unknown, 0;
    match step
    case Consuming(call, _) =>
      user, capability, timezone, limit := call.user, call.capability, call.timezone, LimitOf(call);
      ConsumeAdds(w.ledger.rows, call);
    case Reserving(r) =>
      user, capability, timezone, limit := r.user, r.capability, r.timezone, RequestLimit(r);
      ReserveAdds(w.ledger, r);
    case Committing(t, _, _) => AdjustKeeps(w.ledger.rows, t.key, t.amount, Mode.Commit);
    case Releasing(t, _) => AdjustKeeps(w.ledger.rows, t.key, t.amount, Release);
    case Claiming(_, _) =>
    case TakingBack(t, _) => AdjustKeeps(w.ledger.rows, t.key, t.amount, Release);
  }

  lemma AddedKeepsOneOpen(t: Table, t': Table, before: int, user: nat, capability: Capability, now: int, timezone: Timezone, limit: int)
    requires Q.OneOpen(t, before) && before <= now && OnlyWindowAdded(t, t', user, capability, now, timezone, limit)
    ensures Q.OneOpen(t', now)
  {
    assert Q.OneOpen(t, now);
    forall k, l | k in t' && l in t' && k.user == l.user && k.capability == l.capability && IsOpen(k, t'[k], now) && IsOpen(l, t'[l], now)
      ensures k == l
    {
      assert forall m | m in t && m.user == user && m.capability == capability && IsOpen(m, t[m], now) ::
          m.date in OpenDates(t, user, capability, now);
    }
  }

  /** At most one open row for each user and capability, whichever services open them, over every run. */
  lemma {:induction false} AtMostOneOpenRow(steps: seq<Step>)
    requires steps != [] && Monotone(steps)
    ensures Q.OneOpen(Run(steps).ledger.rows, steps[|steps| - 1].Now())
  {
    var front, last := steps[..|steps| - 1], steps[|steps| - 1];
    var w := Run(front);
    hide After, OnlyWindowAdded, Q.OneOpen;
    var user, capability, timezone, limit := StepAdds(w, last);
    if front != [] {
      AtMostOneOpenRow(front);
      AddedKeepsOneOpen(w.ledger.rows, After(w, last).ledger.rows, front[|front| - 1].Now(), user, capability, last.Now(), timezone, limit);
    } else {
      NoneOpen();
      AddedKeepsOneOpen(map[], After(w, last).ledger.rows, last.Now(), user, capability, last.Now(), timezone, limit);
    }
  }

  lemma NoneOpen()
    ensures forall now :: Q.OneOpen(map[], now)
  {
  }

  // ---------- dates ----------

  predicate Dated(k: Key, at: int) {
    LocalDate(at, WEST) <= k.date <= LocalDate(at, EAST)
  }

  predicate IssuesDated(issued: set<Issue>) {
    forall i | i in issued :: Dated(i.key, i.at)
  }

  lemma {:induction false} RowsNoLater(steps: seq<Step>, now: int)
    requires Monotone(steps) && (steps != [] ==> steps[|steps| - 1].Now() <= now)
    ensures Q.NoLaterThan(Run(steps).ledger.rows, LocalDate(now, EAST))
  {
    if steps != [] {
      var front, last := steps[..|steps| - 1], steps[|steps| - 1];
      RowsNoLater(front, now);
      hide After;
      var user, capability, timezone, limit := StepAdds(Run(front), last);
      Q.LocalDateMonotone(last.Now(), CoerceTimezone(timezone), now, EAST);
    }
  }

  /** A row that is open at an instant, or that the zone of the caller shows then, is dated for that instant. */
  lemma WindowDated(t: Table, user: nat, capability: Capability, now: int, zone: Offset, k: Key)
    requires Q.NoLaterThan(t, LocalDate(now, EAST)) && k.user == user && k.capability == capability
    requires k.date in OpenDates(t, user, capability, now) || k.date == LocalDate(now, zone)
    ensures Dated(k, now)
  {
    Q.LocalDateMonotone(now, WEST, now, zone);
    Q.LocalDateMonotone(now, zone, now, EAST);
    if k.date in OpenDates(t, user, capability, now) {
      var row := t[Key(user, k.date, capability)];
      assert ResetAt(k.date, row.timezone) > now;
      Q.LocalDateMonotone(now, WEST, now, row.timezone);
    }
  }

  lemma ConsumeKey(t: Table, call: Call)
    requires ConsumeEffect(t, call).outcome.Done?
    ensures var k := ConsumeEffect(t, call).outcome.key;
      && k.user == call.user && k.capability == call.capability && call.amount >= 1
      && (k.date in OpenDates(t, call.user, call.capability, call.now) || k.date == LocalDate(call.now, CoerceTimezone(call.timezone)))
  {
    WindowDate(t, Request(call.user, call.capability, 0, call.now, call.timezone, 1, None));
    hide OpenDates;
  }

  /** Every ticket is issued, and every unit is booked, on a date that some zone shows at the instant of issue. */
  lemma {:induction false} IssuesAreDated(steps: seq<Step>)
    requires Monotone(steps) && Honest(steps)
    ensures IssuesDated(Run(steps).issued) && Q.ChargesDated(Run(steps).log)
  {
    if steps != [] {
      var front, last := steps[..|steps| - 1], steps[|steps| - 1];
      HonestFront(steps);
      IssuesAreDated(front);
      RowsNoLater(front, last.Now());
      assert last.Committing? ==> Issue(last.ticket.key, last.issuedAt) in Run(front).issued by {
        assert steps[|steps| - 1] == last;
      }
      hide Run, Monotone, Honest;
      StepDated(Run(front), last);
    }
  }

  lemma HonestFront(steps: seq<Step>)
    requires steps != [] && Honest(steps)
    ensures Honest(steps[..|steps| - 1])
  {
    var front := steps[..|steps| - 1];
    forall i | 0 <= i < |front| && front[i].Committing? ensures Issue(front[i].ticket.key, front[i].issuedAt) in Run(front[..i]).issued {
      assert front[..i] == steps[..i] && steps[i] == front[i];
    }
  }

  lemma StepDated(w: World, step: Step)
    requires IssuesDated(w.issued) && Q.ChargesDated(w.log) && Q.NoLaterThan(w.ledger.rows, LocalDate(step.Now(), EAST))
    requires step.Committing? ==> Issue(step.ticket.key, step.issuedAt) in w.issued
    ensures IssuesDated(After(w, step).issued) && Q.ChargesDated(After(w, step).log)
  {
    hide ConsumeEffect, ReserveEffect, AdjustEffect, CommitEffect, ExpireEffect, ClaimEffect, OpenDates, Q.NoLaterThan, Find;
    match step
    case Consuming(call, _) =>
      if ConsumeEffect(w.ledger.rows, call).outcome.Done? {
        ConsumeKey(w.ledger.rows, call);
        WindowDated(w.ledger.rows, call.user, call.capability, call.now, CoerceTimezone(call.timezone), ConsumeEffect(w.ledger.rows, call).outcome.key);
      }
    case Reserving(r) =>
      ReserveAdds(w.ledger, r);
      if Opens(w.ledger, r) {
        WindowDated(w.ledger.rows, r.user, r.capability, r.now, CoerceTimezone(r.timezone), ReserveEffect(w.ledger, r).result.ticket.key);
      }
      hide Opens;
    case _ =>
  }

  // ---------- conservation ----------

  ghost predicate Conserved(t: Table, log: seq<Q.Entry>) {
    Q.Conserved(Q.World(t, log))
  }

  /** One counter change and its entry. */
  lemma ChangeConserves(t: Table, log: seq<Q.Entry>, e: Q.Entry, row: UsageRow)
    requires Conserved(t, log) && e.key in t && e.amount >= 1 && e.kind != Q.Committed
    requires row.used == t[e.key].used + (if e.kind == Q.Consumed then e.amount else 0)
    requires row.reserved == t[e.key].reserved + (if e.kind == Q.Reserved then e.amount else if e.kind == Q.Released then -e.amount else 0)
    requires 0 <= row.reserved && row.used + row.reserved <= row.limit
    ensures Conserved(t[e.key := row], log + [e])
  {
    var t', log' := t[e.key := row], log + [e];
    forall k | k in t' ensures Q.RowConserved(t'[k], log', k) {
      assert Q.RowConserved(t[k], log, k);
      Q.AppendTotal(log, e, Q.Consumed, k);
      Q.AppendTotal(log, e, Q.Reserved, k);
      Q.AppendTotal(log, e, Q.Released, k);
      Q.AppendTotal(log, e, Q.Committed, k);
    }
    assert forall i | 0 <= i < |log'| :: log'[i].key in t' && log'[i].amount >= 1;
  }

  lemma EmptyRowConserves(t: Table, log: seq<Q.Entry>, k: Key, zone: Offset, limit: int)
    requires Conserved(t, log) && 0 <= limit
    ensures Conserved(EnsureRow(t, k, zone, limit), log)
  {
    if k !in t {
      Q.NoEntryNoTotal(log, Q.Consumed, k);
      Q.NoEntryNoTotal(log, Q.Reserved, k);
      Q.NoEntryNoTotal(log, Q.Released, k);
      Q.NoEntryNoTotal(log, Q.Committed, k);
    }
    assert forall q | q in t :: Q.RowConserved(t[q], log, q);
  }

  function EntryOf(k: Key, amount: int, mode: Mode, now: int): Q.Entry {
    Q.Entry(if mode == Mode.Reserve then Q.Reserved else Q.Released, k, amount, now)
  }

  lemma AdjustConserves(t: Table, log: seq<Q.Entry>, k: Key, amount: int, mode: Mode, now: int)
    requires Conserved(t, log) && (mode == Mode.Reserve || mode == Release)
    ensures var e := AdjustEffect(t, k, amount, mode);
      Conserved(e.table, if e.outcome.Done? then log + [EntryOf(k, amount, mode, now)] else log)
  {
    var e := AdjustEffect(t, k, amount, mode);
    if e.outcome.Done? {
      ChangeConserves(t, log, EntryOf(k, amount, mode, now), e.outcome.row);
    }
  }

  lemma CommitConserves(t: Table, log: seq<Q.Entry>, k: Key, amount: int, issuedAt: int, now: int)
    requires Conserved(t, log)
    ensures var e := AdjustEffect(t, k, amount, Mode.Commit);
      e.outcome.Done? ==>
        Conserved(e.table, log + [Q.Entry(Q.Released, k, amount, now)] + [Q.Entry(Q.Consumed, k, amount, issuedAt)])
  {
    var e := AdjustEffect(t, k, amount, Mode.Commit);
    if e.outcome.Done? {
      var released := Q.Entry(Q.Released, k, amount, now);
      var between := t[k].(reserved := t[k].reserved - amount);
      ChangeConserves(t, log, released, between);
      ChangeConserves(t[k := between], log + [released], Q.Entry(Q.Consumed, k, amount, issuedAt), e.outcome.row);
      assert t[k := between][k := e.outcome.row] == e.table;
    }
  }

  lemma ConsumeConserves(t: Table, log: seq<Q.Entry>, call: Call)
    requires Conserved(t, log)
    ensures var e := ConsumeEffect(t, call);
      Conserved(e.table, if e.outcome.Done? then log + [Q.Entry(Q.Consumed, e.outcome.key, call.amount, call.now)] else log)
  {
    if call.amount >= 1 && LimitOf(call) >= 0 {
      var w := ResolveWindow(t, call.user, call.capability, call.now, call.timezone);
      var k := Key(call.user, w.date, call.capability);
      var ensured, e := EnsureRow(t, k, w.zone, LimitOf(call)), ConsumeEffect(t, call);
      EmptyRowConserves(t, log, k, w.zone, LimitOf(call));
      if e.outcome.Done? {
        ChangeConserves(ensured, log, Q.Entry(Q.Consumed, k, call.amount, call.now), e.outcome.row);
      }
    }
  }

  lemma ReserveConserves(w: World, r: Request)
    requires Conserved(w.ledger.rows, w.log)
    ensures Conserved(AfterReserving(w, r).ledger.rows, AfterReserving(w, r).log)
  {
    var l := w.ledger;
    var found := Find(l.holds, r.user, r.capability, r.source);
    if Opens(l, r) {
      var dropped, log := DropStale(l, found), w.log + StaleEntries(l, found, r.now);
      if Stale(l, found) {
        AdjustConserves(l.rows, w.log, l.holds[found.value].On(), l.holds[found.value].amount, Release, r.now);
      }
      hide Q.Conserved;
      assert log == w.log || log == w.log + StaleEntries(l, found, r.now);
      assert w.log + [] == w.log;
      assert Conserved(dropped.rows, log);
      hide Conserved, StaleEntries, DropStale, Find;
      var window := ResolveWindow(dropped.rows, r.user, r.capability, r.now, r.timezone);
      var k := Key(r.user, window.date, r.capability);
      EmptyRowConserves(dropped.rows, log, k, window.zone, RequestLimit(r));
      AdjustConserves(EnsureRow(dropped.rows, k, window.zone, RequestLimit(r)), log, k, r.amount, Mode.Reserve, r.now);
    }
  }

  lemma StepConserves(w: World, step: Step)
    requires Conserved(w.ledger.rows, w.log)
    ensures Conserved(After(w, step).ledger.rows, After(w, step).log)
  {
    hide Conserved, ConsumeEffect, AdjustEffect, ReserveEffect, AfterReserving;
    match step
    case Consuming(call, _) => ConsumeConserves(w.ledger.rows, w.log, call);
    case Reserving(r) => ReserveConserves(w, r);
    case Committing(t, issuedAt, now) => CommitConserves(w.ledger.rows, w.log, t.key, t.amount, issuedAt, now);
    case Releasing(t, now) => TakingBackConserves(w, t, now);
    case Claiming(_, _) =>
    case TakingBack(t, now) => TakingBackConserves(w, t, now);
  }

  lemma TakingBackConserves(w: World, t: Ticket, now: int)
    requires Conserved(w.ledger.rows, w.log)
    ensures Conserved(AfterTakingBack(w, t, now).ledger.rows, AfterTakingBack(w, t, now).log)
  {
    AdjustConserves(w.ledger.rows, w.log, t.key, t.amount, Release, now);
    assert w.log + [] == w.log;
    hide Conserved;
  }

  /** Over every run each row holds exactly the units that were consumed or committed, and those still reserved. */
  lemma {:induction false} RunConserves(steps: seq<Step>)
    ensures Conserved(Run(steps).ledger.rows, Run(steps).log)
  {
    if steps != [] {
      hide After, Conserved;
      RunConserves(steps[..|steps| - 1]);
      StepConserves(Run(steps[..|steps| - 1]), steps[|steps| - 1]);
    }
  }

  // ---------- how much a run can book ----------

  /** No call for this user and capability asks for a larger limit. */
  predicate CallsWithin(steps: seq<Step>, user: nat, capability: Capability, limit: int) {
    forall i | 0 <= i < |steps| ::
      && (steps[i].Consuming? && steps[i].call.user == user && steps[i].call.capability == capability ==> LimitOf(steps[i].call) <= limit)
      && (steps[i].Reserving? && steps[i].request.user == user && steps[i].request.capability == capability ==>
            RequestLimit(steps[i].request) <= limit)
  }

  lemma {:induction false} RunLimitsWithin(steps: seq<Step>, user: nat, capability: Capability, limit: int)
    requires CallsWithin(steps, user, capability, limit)
    ensures Q.LimitsWithin(Run(steps).ledger.rows, user, capability, limit)
  {
    if steps != [] {
      var front, last := steps[..|steps| - 1], steps[|steps| - 1];
      assert CallsWithin(front, user, capability, limit);
      RunLimitsWithin(front, user, capability, limit);
      assert steps[|steps| - 1] == last;
      hide After;
      var u, c, timezone, l := StepAdds(Run(front), last);
    }
  }

  /**
    The bound on zone hopping: whatever zones are sent and whichever services open the rows, the units
    consumed in t0..t1, and those committed on tickets issued in t0..t1, are at most one limit for each date
    that some zone shows in that time.
   */
  lemma HoppingIsBounded(steps: seq<Step>, user: nat, capability: Capability, limit: int, t0: int, t1: int)
    requires Monotone(steps) && Honest(steps) && t0 <= t1
    requires 0 <= limit && CallsWithin(steps, user, capability, limit)
    ensures Q.ChargedWithin(Run(steps).log, user, capability, t0, t1)
         <= limit * (LocalDate(t1, EAST) - LocalDate(t0, WEST) + 1)
  {
    RunConserves(steps);
    RunLimitsWithin(steps, user, capability, limit);
    IssuesAreDated(steps);
    BookedIsBounded(Q.World(Run(steps).ledger.rows, Run(steps).log), user, capability, limit, t0, t1);
    hide *;
  }

  lemma BookedIsBounded(w: Q.World, user: nat, capability: Capability, limit: int, t0: int, t1: int)
    requires Q.Conserved(w) && Q.ChargesDated(w.log) && Q.LimitsWithin(w.table, user, capability, limit)
    requires 0 <= limit && t0 <= t1
    ensures Q.ChargedWithin(w.log, user, capability, t0, t1) <= limit * (LocalDate(t1, EAST) - LocalDate(t0, WEST) + 1)
  {
    hide Q.Conserved, Q.ChargesDated, Q.LimitsWithin, Q.Charged, Q.ChargedWithin, LocalDate;
    Q.ChargedWithinItsDates(w.log, user, capability, t0, t1);
    Q.LocalDateMonotone(t0, WEST, t1, EAST);
    Q.ChargedOverDates(w, user, capability, limit, t0, t1, LocalDate(t0, WEST), LocalDate(t1, EAST));
  }

  // ---------- the bound is reached by reservations too ----------

  /** A hold of a whole limit, opened at an instant in a zone, and the steps that reserve and commit it. */
  function Whole(user: nat, capability: Capability, source: nat, now: int, zone: Offset): Request {
    Request(user, capability, source, now, Known(zone), DailyLimit(capability), None)
  }

  function Settled(r: Request, id: nat, date: int): seq<Step> {
    [Step.Reserving(r), Step.Committing(Ticket(id, Key(r.user, date, r.capability), r.amount, Held), r.now, r.now)]
  }

  function SettledEntries(r: Request, date: int): seq<Q.Entry> {
    var k := Key(r.user, date, r.capability);
    [Q.Entry(Q.Reserved, k, r.amount, r.now), Q.Entry(Q.Released, k, r.amount, r.now), Q.Entry(Q.Consumed, k, r.amount, r.now)]
  }

  function SettledWorld(w: World, r: Request, date: int, zone: Offset): World {
    var k := Key(r.user, date, r.capability);
    World(
      Ledger(w.ledger.rows[k := UsageRow(zone, r.amount, 0, r.amount, 3)],
             w.ledger.holds + [Hold(r.user, r.capability, r.source, date, r.amount, r.now + TTL, Status.Committed)]),
      w.log + SettledEntries(r, date),
      w.issued + {Issue(k, r.now)})
  }

  lemma FirstReserve(l: Ledger, r: Request, date: int, zone: Offset)
    requires r.timezone == Known(zone) && r.limit.None? && r.amount == DailyLimit(r.capability)
    requires LocalDate(r.now, zone) == date && OpenDates(l.rows, r.user, r.capability, r.now) == {}
    requires Key(r.user, date, r.capability) !in l.rows
    requires forall i | 0 <= i < |l.holds| :: l.holds[i].source != r.source
    ensures var k := Key(r.user, date, r.capability);
      && Find(l.holds, r.user, r.capability, r.source) == None
      && ReserveEffect(l, r) == Reply(
           Ledger(l.rows[k := UsageRow(zone, 0, r.amount, r.amount, 2)],
                  l.holds + [Hold(r.user, r.capability, r.source, date, r.amount, r.now + TTL, Held)]),
           Issued(Ticket(|l.holds|, k, r.amount, Held)))
  {
    hide OpenDates;
    assert Find(l.holds, r.user, r.capability, r.source) == None;
    var k := Key(r.user, date, r.capability);
    assert ResolveWindow(l.rows, r.user, r.capability, r.now, r.timezone) == Window(date, zone);
    var row := UsageRow(zone, 0, r.amount, r.amount, 2);
    assert l.rows[k := UsageRow(zone, 0, 0, r.amount, 1)][k := row] == l.rows[k := row];
  }

  lemma ReserveAndCommit(w: World, r: Request, date: int, zone: Offset)
    requires r.timezone == Known(zone) && r.limit.None? && r.amount == DailyLimit(r.capability)
    requires LocalDate(r.now, zone) == date && OpenDates(w.ledger.rows, r.user, r.capability, r.now) == {}
    requires Key(r.user, date, r.capability) !in w.ledger.rows
    requires forall i | 0 <= i < |w.ledger.holds| :: w.ledger.holds[i].source != r.source
    ensures var steps := Settled(r, |w.ledger.holds|, date);
      && After(After(w, steps[0]), steps[1]) == SettledWorld(w, r, date, zone)
      && Issue(steps[1].ticket.key, r.now) in After(w, steps[0]).issued
  {
    FirstReserve(w.ledger, r, date, zone);
    hide ReserveEffect, Find, OpenDates, LocalDate;
    var k := Key(r.user, date, r.capability);
    var steps, id := Settled(r, |w.ledger.holds|, date), |w.ledger.holds|;
    var held := Hold(r.user, r.capability, r.source, date, r.amount, r.now + TTL, Held);
    var mid := After(w, steps[0]);
    assert mid == World(
        Ledger(w.ledger.rows[k := UsageRow(zone, 0, r.amount, r.amount, 2)], w.ledger.holds + [held]),
        w.log + [SettledEntries(r, date)[0]], w.issued + {Issue(k, r.now)}) by {
      assert w.log + [] + [SettledEntries(r, date)[0]] == w.log + [SettledEntries(r, date)[0]];
    }
    var row := UsageRow(zone, r.amount, 0, r.amount, 3);
    assert mid.ledger.rows[k := row] == w.ledger.rows[k := row];
    assert (w.ledger.holds + [held])[id := held.(status := Status.Committed)] == w.ledger.holds + [held.(status := Status.Committed)];
    assert mid.log + [SettledEntries(r, date)[1]] + [SettledEntries(r, date)[2]] == w.log + SettledEntries(r, date);
  }

  lemma SettledCharged(log: seq<Q.Entry>, r: Request, date: int, t0: int, t1: int)
    requires t0 <= r.now <= t1
    ensures Q.ChargedWithin(log + SettledEntries(r, date), r.user, r.capability, t0, t1)
         == Q.ChargedWithin(log, r.user, r.capability, t0, t1) + r.amount
  {
    var es := SettledEntries(r, date);
    ChargedSnoc(log, es[0], r.user, r.capability, t0, t1);
    ChargedSnoc(log + [es[0]], es[1], r.user, r.capability, t0, t1);
    ChargedSnoc(log + [es[0]] + [es[1]], es[2], r.user, r.capability, t0, t1);
    assert log + es == log + [es[0]] + [es[1]] + [es[2]];
    hide Q.ChargedWithin;
  }

  lemma ChargedSnoc(log: seq<Q.Entry>, e: Q.Entry, user: nat, capability: Capability, t0: int, t1: int)
    ensures Q.ChargedWithin(log + [e], user, capability, t0, t1) == Q.ChargedWithin(log, user, capability, t0, t1)
      + if e.kind == Q.Consumed && e.key.user == user && e.key.capability == capability && t0 <= e.now <= t1 then e.amount else 0
  {
    assert (log + [e])[..|log|] == log;
  }

  /** The same three hops, now by tickets that are reserved and committed, for whichever capability. */
  function Hop(user: nat, capability: Capability, i: nat): Request
    requires i < 3
  {
    if i == 0 then Whole(user, capability, 0, Q.HOP_START, EAST)
    else if i == 1 then Whole(user, capability, 1, Q.HOP_START + 1, WEST)
    else Whole(user, capability, 2, Q.HOP_END, EAST)
  }

  function HopZone(i: nat): Offset {
    if i == 1 then WEST else EAST
  }

  function HopDate(i: nat): int {
    if i == 0 then 0 else if i == 1 then -1 else 1
  }

  function HopRun(user: nat, capability: Capability, hops: nat): seq<Step>
    requires hops <= 3
  {
    if hops == 0 then [] else HopRun(user, capability, hops - 1) + Settled(Hop(user, capability, hops - 1), hops - 1, HopDate(hops - 1))
  }

  function HopWorld(user: nat, capability: Capability, hops: nat): (w: World)
    requires hops <= 3
    ensures |w.ledger.holds| == hops && forall i | 0 <= i < hops :: w.ledger.holds[i].source == i
    ensures w.ledger.rows.Keys == set i | 0 <= i < hops :: Key(user, HopDate(i), capability)
    ensures forall i | 0 <= i < hops :: w.ledger.rows[Key(user, HopDate(i), capability)].timezone == HopZone(i)
  {
    if hops == 0 then EMPTY
    else SettledWorld(HopWorld(user, capability, hops - 1), Hop(user, capability, hops - 1), HopDate(hops - 1), HopZone(hops - 1))
  }

  lemma HopRequest(user: nat, capability: Capability, i: nat)
    requires i < 3
    ensures var r := Hop(user, capability, i);
      && (r.user, r.capability, r.amount, r.source) == (user, capability, DailyLimit(capability), i)
      && r.timezone == Known(HopZone(i)) && r.limit == None && Q.HOP_START <= r.now <= Q.HOP_END
  {
    hide DailyLimit;
  }

  lemma HopIsFirst(user: nat, capability: Capability, i: nat)
    requires i < 3
    ensures var w, r := HopWorld(user, capability, i), Hop(user, capability, i);
      && LocalDate(r.now, HopZone(i)) == HopDate(i) && OpenDates(w.ledger.rows, user, capability, r.now) == {}
      && Key(user, HopDate(i), capability) !in w.ledger.rows
  {
    var w, r := HopWorld(user, capability, i), Hop(user, capability, i);
    forall j | 0 <= j < i ensures LocalDate(r.now, HopZone(j)) != HopDate(j) {
      HopIsElsewhere(user, capability, i, j);
    }
    HopIsElsewhere(user, capability, i, i);
    hide HopWorld, Hop, HopZone, HopDate, LocalDate;
  }

  lemma HopIsElsewhere(user: nat, capability: Capability, i: nat, j: nat)
    requires j <= i < 3
    ensures LocalDate(Hop(user, capability, i).now, HopZone(j)) == HopDate(j) <==> i == j
    ensures HopDate(i) == HopDate(j) <==> i == j
  {
  }

  lemma RunTwo(front: seq<Step>, a: Step, b: Step)
    ensures Run(front + [a]) == After(Run(front), a) && Run(front + [a, b]) == After(After(Run(front), a), b)
  {
    hide After, Run;
    RunSnoc(front, a);
    RunSnoc(front + [a], b);
    assert front + [a] + [b] == front + [a, b];
  }

  lemma RunSnoc(front: seq<Step>, a: Step)
    ensures Run(front + [a]) == After(Run(front), a)
  {
    hide After;
    assert (front + [a])[..|front|] == front;
  }

  lemma HopSettles(user: nat, capability: Capability, i: nat)
    requires i < 3
    ensures var w, two := HopWorld(user, capability, i), Settled(Hop(user, capability, i), i, HopDate(i));
      && After(After(w, two[0]), two[1]) == HopWorld(user, capability, i + 1)
      && Issue(two[1].ticket.key, two[1].issuedAt) in After(w, two[0]).issued
  {
    hide After, Hop, OpenDates, LocalDate, SettledWorld, DailyLimit;
    HopRequest(user, capability, i);
    HopIsFirst(user, capability, i);
    ReserveAndCommit(HopWorld(user, capability, i), Hop(user, capability, i), HopDate(i), HopZone(i));
  }

  lemma {:induction false} HopsRun(user: nat, capability: Capability, hops: nat)
    requires hops <= 3
    ensures Run(HopRun(user, capability, hops)) == HopWorld(user, capability, hops) && Honest(HopRun(user, capability, hops))
    decreases hops
  {
    if hops > 0 {
      hide After, Run, Hop, HopWorld, Honest, HopDate;
      var i := hops - 1;
      var front, two := HopRun(user, capability, i), Settled(Hop(user, capability, i), i, HopDate(i));
      HopsRun(user, capability, i);
      HopSettles(user, capability, i);
      RunTwo(front, two[0], two[1]);
      assert two == [two[0], two[1]];
      StaysHonest(front, two[0], two[1]);
    }
  }

  lemma StaysHonest(front: seq<Step>, a: Step, b: Step)
    requires Honest(front) && !a.Committing? && b.Committing?
    requires Issue(b.ticket.key, b.issuedAt) in Run(front + [a]).issued
    ensures Honest(front + [a, b])
  {
    hide Run;
    var all := front + [a, b];
    forall i | 0 <= i < |all| && all[i].Committing? ensures Issue(all[i].ticket.key, all[i].issuedAt) in Run(all[..i]).issued {
      if i < |front| {
        assert all[..i] == front[..i] && all[i] == front[i];
      } else {
        assert all[..i] == front + [a];
      }
    }
  }

  lemma HopLogNext(user: nat, capability: Capability, i: nat)
    requires i < 3
    ensures HopWorld(user, capability, i + 1).log == HopWorld(user, capability, i).log + SettledEntries(Hop(user, capability, i), HopDate(i))
    ensures HopWorld(user, capability, 0).log == []
  {
    hide Hop, HopDate, HopZone, SettledEntries;
  }

  lemma {:induction false} HopsCharged(user: nat, capability: Capability, hops: nat)
    requires hops <= 3
    ensures Q.ChargedWithin(HopWorld(user, capability, hops).log, user, capability, Q.HOP_START, Q.HOP_END) == hops * DailyLimit(capability)
    decreases hops
  {
    hide *;
    if hops == 0 {
      HopLogNext(user, capability, 0);
      NothingCharged(user, capability, Q.HOP_START, Q.HOP_END);
    } else {
      HopsCharged(user, capability, hops - 1);
      HopCharged(user, capability, hops - 1);
      OneMoreTime(hops - 1, DailyLimit(capability));
    }
  }

  lemma OneMoreTime(n: int, x: int)
    ensures (n + 1) * x == n * x + x
  {
  }

  lemma NothingCharged(user: nat, capability: Capability, t0: int, t1: int)
    ensures Q.ChargedWithin([], user, capability, t0, t1) == 0
  {
  }

  lemma HopCharged(user: nat, capability: Capability, i: nat)
    requires i < 3
    ensures Q.ChargedWithin(HopWorld(user, capability, i + 1).log, user, capability, Q.HOP_START, Q.HOP_END)
         == Q.ChargedWithin(HopWorld(user, capability, i).log, user, capability, Q.HOP_START, Q.HOP_END) + DailyLimit(capability)
  {
    hide *;
    HopLogNext(user, capability, i);
    HopRequest(user, capability, i);
    SettledCharged(HopWorld(user, capability, i).log, Hop(user, capability, i), HopDate(i), Q.HOP_START, Q.HOP_END);
  }

  /**
    The bound is reached by reservations as well, so also where a service charges in no other way: three whole
    limits within two hours.
   */
  lemma ReservingReachesTheBound(user: nat, capability: Capability)
    ensures var limit, run := DailyLimit(capability), HopRun(user, capability, 3);
      && Monotone(run) && Honest(run) && CallsWithin(run, user, capability, limit)
      && Q.HOP_END - Q.HOP_START <= 2 * HOUR + 1
      && Q.ChargedWithin(Run(run).log, user, capability, Q.HOP_START, Q.HOP_END) == 3 * limit
      && LocalDate(Q.HOP_END, EAST) - LocalDate(Q.HOP_START, WEST) + 1 == 3
  {
    HopsRun(user, capability, 3);
    HopsCharged(user, capability, 3);
    HopSteps(user, capability);
    assert LocalDate(Q.HOP_END, EAST) == 1 && LocalDate(Q.HOP_START, WEST) == -1;
    hide Run, Q.ChargedWithin, HopWorld, HopRun, Honest;
  }

  /** The three hops, step by step. */
  lemma HopRunSteps(user: nat, capability: Capability)
    ensures HopRun(user, capability, 3)
         == Settled(Hop(user, capability, 0), 0, 0) + Settled(Hop(user, capability, 1), 1, -1) + Settled(Hop(user, capability, 2), 2, 1)
  {
    hide Settled, Hop;
    var first := Settled(Hop(user, capability, 0), 0, 0);
    assert HopRun(user, capability, 0) == [] && [] + first == first;
    assert HopRun(user, capability, 1) == first;
    assert HopRun(user, capability, 2) == first + Settled(Hop(user, capability, 1), 1, -1);
  }

  lemma HopSteps(user: nat, capability: Capability)
    ensures Monotone(HopRun(user, capability, 3)) && CallsWithin(HopRun(user, capability, 3), user, capability, DailyLimit(capability))
  {
    hide HopRun, DailyLimit;
    HopRunSteps(user, capability);
    var run := HopRun(user, capability, 3);
    assert forall i | 0 <= i < 3 :: run[2 * i] == Step.Reserving(Hop(user, capability, i));
    assert forall i | 0 <= i < 3 :: run[2 * i + 1].Committing? && run[2 * i + 1].Now() == Hop(user, capability, i).now;
  }
}
