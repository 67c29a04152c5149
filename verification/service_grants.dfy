/** When the quota services grant units, in terms of what a run has booked and reserved so far. */
module ServiceGrants {
  import opened Common
  import opened Days
  import opened Quota
  import opened ServiceRuns
  import R = Reservations
  import Q = QuotaRuns

  /** Units of a row that are consumed, or reserved and not given back. */
  function Taken(log: seq<Q.Entry>, k: Key): int {
    Q.Total(log, Q.Consumed, k) + Q.Total(log, Q.Reserved, k) - Q.Total(log, Q.Released, k)
  }

  function NamedLimit(step: Step): int {
    match step
    case Consuming(call, _) => LimitOf(call)
    case Reserving(r) => R.RequestLimit(r)
    case _ => 0
  }

  /** The limit named by the step that opened the row. */
  function OpenedWith(steps: seq<Step>, k: Key): Option<int> {
    if steps == [] then None
    else
      var before := OpenedWith(steps[..|steps| - 1], k);
      if before.Some? then before
      else if k in Run(steps).ledger.rows then Some(NamedLimit(steps[|steps| - 1]))
      else None
  }

  /** The limit that counts for a request: that of the row, or its own when it opens the row. */
  function LimitFor(steps: seq<Step>, k: Key, named: int): int {
    if OpenedWith(steps, k).Some? then OpenedWith(steps, k).value else named
  }

  lemma {:induction false} OpenedWithIsLimit(steps: seq<Step>, k: Key)
    ensures k in Run(steps).ledger.rows <==> OpenedWith(steps, k).Some?
    ensures k in Run(steps).ledger.rows ==> Run(steps).ledger.rows[k].limit == OpenedWith(steps, k).value
  {
    if steps != [] {
      var front, last := steps[..|steps| - 1], steps[|steps| - 1];
      OpenedWithIsLimit(front, k);
      hide After;
      var user, capability, timezone, limit := StepAdds(Run(front), last);
    }
  }

  lemma TakenOnRow(steps: seq<Step>, k: Key)
    ensures var rows, log := Run(steps).ledger.rows, Run(steps).log;
      Taken(log, k) == if k in rows then rows[k].used + rows[k].reserved else 0
  {
    RunConserves(steps);
    var rows, log := Run(steps).ledger.rows, Run(steps).log;
    hide Run, Q.Total;
    if k in rows {
      assert Q.RowConserved(rows[k], log, k);
    } else {
      Q.NothingLogged(log, k);
    }
  }

  // ---------- consuming ----------

  function KeyOf(rows: Table, call: Call): Key {
    Key(call.user, ResolveWindow(rows, call.user, call.capability, call.now, call.timezone).date, call.capability)
  }

  /**
    A valid call is refused if and only if what is taken on the row of its window, and its amount, exceed the
    limit that the row was opened with; otherwise it is charged to that row. Any other call is rejected.
   */
  lemma ConsumingIff(steps: seq<Step>, call: Call)
    ensures var w, e := Run(steps), ConsumeEffect(Run(steps).ledger.rows, call);
      var k := KeyOf(w.ledger.rows, call);
      if call.amount < 1 || LimitOf(call) < 0 then e == Effect(w.ledger.rows, Rejected)
      else if Taken(w.log, k) + call.amount > LimitFor(steps, k, LimitOf(call)) then e.outcome.Refused?
      else e.outcome.Done? && e.outcome.key == k
  {
    var k := KeyOf(Run(steps).ledger.rows, call);
    TakenOnRow(steps, k);
    OpenedWithIsLimit(steps, k);
    hide Run, Taken, OpenedWith;
  }

  // ---------- reserving ----------

  /** Every hold is on a row. */
  predicate HoldsHaveRows(l: R.Ledger) {
    forall i | 0 <= i < |l.holds| :: l.holds[i].On() in l.rows
  }

  lemma {:induction false} RunHasRows(steps: seq<Step>)
    ensures HoldsHaveRows(Run(steps).ledger)
  {
    if steps != [] {
      var front, last := steps[..|steps| - 1], steps[|steps| - 1];
      RunHasRows(front);
      StepsAreTheServices(Run(front), last);
      hide After, ConsumeEffect, AdjustEffect;
      var user, capability, timezone, limit := StepAdds(Run(front), last);
      StepHasRows(Run(front), last);
    }
  }

  /** No step adds a hold on another row than those there are, nor moves one. */
  lemma StepHasRows(w: World, step: Step)
    requires HoldsHaveRows(w.ledger) && RowsKept(w.ledger.rows, After(w, step).ledger.rows)
    ensures HoldsHaveRows(After(w, step).ledger)
  {
    hide ConsumeEffect, AdjustEffect, EnsureRow;
    match step
    case Reserving(r) => ReserveHasRows(w.ledger, r);
    case _ =>
  }

  lemma ReserveHasRows(l: R.Ledger, r: R.Request)
    requires HoldsHaveRows(l)
    ensures HoldsHaveRows(R.ReserveEffect(l, r).ledger)
  {
    var found := R.Find(l.holds, r.user, r.capability, r.source);
    DropKeeps(l, found);
    hide ConsumeEffect, AdjustEffect, ResolveWindow, R.Find, RowsKept;
    var dropped := R.DropStale(l, found);
    assert HoldsHaveRows(dropped);
    OpenHasRows(dropped, found, r);
  }

  lemma OpenHasRows(l: R.Ledger, found: Option<nat>, r: R.Request)
    requires HoldsHaveRows(l)
    ensures HoldsHaveRows(R.OpenHold(l, found, r).ledger)
  {
    var w := ResolveWindow(l.rows, r.user, r.capability, r.now, r.timezone);
    var k := Key(r.user, w.date, r.capability);
    AdjustKeeps(EnsureRow(l.rows, k, w.zone, R.RequestLimit(r)), k, r.amount, Mode.Reserve);
    hide ResolveWindow, AdjustEffect;
  }

  /** The source has a hold that is committed, or held and not expired: the request is answered with it. */
  predicate Replayed(l: R.Ledger, r: R.Request) {
    var found := R.Find(l.holds, r.user, r.capability, r.source);
    && found.Some?
    && var h := l.holds[found.value];
       h.status == R.Status.Committed || (h.status == R.Status.Held && r.now < h.expiresAt)
  }

  /** The units that the request's source gives back first, when its hold has expired. */
  function GivenBack(w: World, r: R.Request): seq<Q.Entry> {
    StaleEntries(w.ledger, R.Find(w.ledger.holds, r.user, r.capability, r.source), r.now)
  }

  function RequestKey(rows: Table, r: R.Request): Key {
    Key(r.user, ResolveWindow(rows, r.user, r.capability, r.now, r.timezone).date, r.capability)
  }

  /**
    A valid request that is not a replay gets a new hold if and only if what is taken on the row of its window,
    after an expired hold of the same source is given back, and its amount are within the limit that the row
    was opened with. Otherwise the limit is exceeded.
   */
  lemma ReservingIff(steps: seq<Step>, r: R.Request)
    requires r.amount >= 1 && R.RequestLimit(r) >= 0 && !Replayed(Run(steps).ledger, r)
    ensures var w, e := Run(steps), R.ReserveEffect(Run(steps).ledger, r);
      var k := RequestKey(w.ledger.rows, r);
      && (e.result.Issued? <==> Taken(w.log + GivenBack(w, r), k) + r.amount <= LimitFor(steps, k, R.RequestLimit(r)))
      && (e.result.Issued? ==> e.result.ticket.key == k && e.result.ticket.amount == r.amount)
      && (!e.result.Issued? ==> e == R.Reply(w.ledger, R.Exceeded))
  {
    var w := Run(steps);
    var found := R.Find(w.ledger.holds, r.user, r.capability, r.source);
    var dropped, k := R.DropStale(w.ledger, found), RequestKey(w.ledger.rows, r);
    RunHasRows(steps);
    DropKeeps(w.ledger, found);
    SameOpenDates(w.ledger.rows, dropped.rows, r.user, r.capability, r.now);
    SameWindow(w.ledger.rows, dropped.rows, r);
    TakenAfterGiving(steps, r, k);
    OpenedWithIsLimit(steps, k);
    hide Run, Taken, OpenedWith, R.Find, ResolveWindow, OpenDates, GivenBack, R.DropStale;
    OpenIff(dropped, found, r);
    hide R.OpenHold;
  }

  lemma SameWindow(t: Table, t': Table, r: R.Request)
    requires t.Keys == t'.Keys && RowsKept(t, t')
    ensures ResolveWindow(t, r.user, r.capability, r.now, r.timezone) == ResolveWindow(t', r.user, r.capability, r.now, r.timezone)
  {
    SameOpenDates(t, t', r.user, r.capability, r.now);
    hide OpenDates;
  }

  lemma OpenIff(l: R.Ledger, found: Option<nat>, r: R.Request)
    requires r.amount >= 1 && R.RequestLimit(r) >= 0
    ensures var e, k := R.OpenHold(l, found, r), RequestKey(l.rows, r);
      var taken := if k in l.rows then l.rows[k].used + l.rows[k].reserved else 0;
      && (e.result.Issued? <==> taken + r.amount <= if k in l.rows then l.rows[k].limit else R.RequestLimit(r))
      && (e.result.Issued? ==> e.result.ticket.key == k && e.result.ticket.amount == r.amount)
      && (!e.result.Issued? ==> e.result == R.Exceeded)
  {
    hide ResolveWindow;
  }

  /** The rows after the expired hold was given back have taken what the log says then. */
  lemma TakenAfterGiving(steps: seq<Step>, r: R.Request, k: Key)
    ensures var w := Run(steps);
      var rows := R.DropStale(w.ledger, R.Find(w.ledger.holds, r.user, r.capability, r.source)).rows;
      Taken(w.log + GivenBack(w, r), k) == if k in rows then rows[k].used + rows[k].reserved else 0
  {
    TakenOnRow(steps, k);
    var w := Run(steps);
    var found := R.Find(w.ledger.holds, r.user, r.capability, r.source);
    hide Run, R.Find, Q.Total;
    assert w.log + [] == w.log;
    if GivenBack(w, r) != [] {
      Q.EveryTotal(w.log, GivenBack(w, r)[0], k);
    }
  }

  /** A ticket can be committed as long as the row still has its units reserved. */
  lemma CommittingIff(steps: seq<Step>, t: R.Ticket)
    requires t.amount >= 1 && t.status != R.Status.Committed
    ensures var w := Run(steps);
      (R.CommitEffect(w.ledger, t).result == R.Settled)
        <==> Q.Total(w.log, Q.Reserved, t.key) - Q.Total(w.log, Q.Released, t.key) - Q.Total(w.log, Q.Committed, t.key) >= t.amount
  {
    RunConserves(steps);
    var w := Run(steps);
    hide Run, Q.Total;
    if t.key in w.ledger.rows {
      assert Q.RowConserved(w.ledger.rows[t.key], w.log, t.key);
    } else {
      Q.NothingLogged(w.log, t.key);
    }
  }

  // ---------- single units in one window ----------

  /** A row is open as long as its zone shows its date, or an earlier one. */
  lemma OpenByDate(k: Key, row: UsageRow, now: int)
    ensures IsOpen(k, row, now) <==> LocalDate(now, row.timezone) <= k.date
  {
  }

  predicate Granted(steps: seq<Step>, call: Call) {
    ConsumeEffect(Run(steps).ledger.rows, call).outcome.Done?
  }

  function Consumes(calls: seq<Call>, handled: bool): (steps: seq<Step>)
    ensures |steps| == |calls| && forall i | 0 <= i < |calls| :: steps[i] == Consuming(calls[i], handled)
  {
    seq(|calls|, i requires 0 <= i < |calls| => Consuming(calls[i], handled))
  }

  /** Calls for one unit of the row. */
  predicate Units(calls: seq<Call>, k: Key) {
    forall i | 0 <= i < |calls| :: calls[i].user == k.user && calls[i].capability == k.capability && calls[i].amount == 1 && LimitOf(calls[i]) >= 0
  }

  /** At no call has the zone left the date. */
  predicate During(calls: seq<Call>, date: int, zone: Offset) {
    forall i | 0 <= i < |calls| :: LocalDate(calls[i].now, zone) <= date
  }

  /** While a row is open it is the window of every call for its user and capability, whatever zone is sent. */
  lemma OpenRowIsWindow(steps: seq<Step>, call: Call, k: Key)
    requires Monotone(steps) && steps != [] && steps[|steps| - 1].Now() <= call.now
    requires k in Run(steps).ledger.rows && k.user == call.user && k.capability == call.capability
    requires LocalDate(call.now, Run(steps).ledger.rows[k].timezone) <= k.date
    ensures KeyOf(Run(steps).ledger.rows, call) == k
  {
    AtMostOneOpenRow(steps);
    var rows := Run(steps).ledger.rows;
    hide Run, Monotone, LocalDate;
    OpenByDate(k, rows[k], call.now);
    assert k.date in OpenDates(rows, call.user, call.capability, call.now);
    var other := KeyOf(rows, call);
    assert other in rows && IsOpen(other, rows[other], call.now);
    assert forall q | q in rows && IsOpen(q, rows[q], call.now) :: IsOpen(q, rows[q], steps[|steps| - 1].Now());
  }

  /** One more unit of an open row: granted while less than the limit is taken. */
  lemma OneUnit(steps: seq<Step>, call: Call, handled: bool, k: Key)
    requires Monotone(steps) && steps != [] && steps[|steps| - 1].Now() <= call.now
    requires k in Run(steps).ledger.rows && Units([call], k)
    requires LocalDate(call.now, Run(steps).ledger.rows[k].timezone) <= k.date
    ensures var w, w' := Run(steps), After(Run(steps), Consuming(call, handled));
      && k in w'.ledger.rows && w'.ledger.rows[k].timezone == w.ledger.rows[k].timezone
      && w'.ledger.rows[k].limit == w.ledger.rows[k].limit
      && (Granted(steps, call) <==> Taken(w.log, k) < w.ledger.rows[k].limit)
      && Taken(w'.log, k) == Taken(w.log, k) + if Granted(steps, call) then 1 else 0
  {
    assert [call][0] == call;
    OpenRowIsWindow(steps, call, k);
    ConsumingIff(steps, call);
    OpenedWithIsLimit(steps, k);
    hide Run, Monotone, LocalDate, ResolveWindow, OpenedWith, Q.Total;
    var w := Run(steps);
    if Granted(steps, call) {
      Q.EveryTotal(w.log, Q.Entry(Q.Consumed, k, 1, call.now), k);
    }
  }

  /** The run up to the call at i. */
  function Before(steps: seq<Step>, calls: seq<Call>, handled: bool, i: nat): seq<Step>
    requires i <= |calls|
  {
    steps + Consumes(calls, handled)[..i]
  }

  lemma BeforeNext(steps: seq<Step>, calls: seq<Call>, handled: bool, i: nat)
    requires i < |calls|
    ensures Run(Before(steps, calls, handled, i + 1)) == After(Run(Before(steps, calls, handled, i)), Consuming(calls[i], handled))
  {
    var front := Before(steps, calls, handled, i);
    assert Before(steps, calls, handled, i + 1) == front + [Consuming(calls[i], handled)];
    RunSnoc(front, Consuming(calls[i], handled));
    hide Run, After;
  }

  lemma BeforeMonotone(steps: seq<Step>, calls: seq<Call>, handled: bool, i: nat)
    requires Monotone(steps + Consumes(calls, handled)) && i < |calls|
    ensures var front := Before(steps, calls, handled, i);
      Monotone(front) && (front != [] ==> front[|front| - 1].Now() <= calls[i].now)
  {
    var all, front := steps + Consumes(calls, handled), Before(steps, calls, handled, i);
    assert forall j | 0 <= j < |front| :: front[j] == all[j];
    assert all[|front|] == Consuming(calls[i], handled);
  }

  function AtMost(x: int, limit: int): int {
    if x <= limit then x else limit
  }

  lemma OneUnitAt(steps: seq<Step>, calls: seq<Call>, handled: bool, k: Key, i: nat)
    requires i < |calls| && Monotone(Before(steps, calls, handled, i)) && Before(steps, calls, handled, i) != []
    requires var front := Before(steps, calls, handled, i); front[|front| - 1].Now() <= calls[i].now
    requires k in Run(Before(steps, calls, handled, i)).ledger.rows && Units(calls, k)
    requires LocalDate(calls[i].now, Run(Before(steps, calls, handled, i)).ledger.rows[k].timezone) <= k.date
    ensures var w := Run(Before(steps, calls, handled, i));
      var w' := After(w, Consuming(calls[i], handled));
      && k in w'.ledger.rows && w'.ledger.rows[k].timezone == w.ledger.rows[k].timezone
      && w'.ledger.rows[k].limit == w.ledger.rows[k].limit
      && (Granted(Before(steps, calls, handled, i), calls[i]) <==> Taken(w.log, k) < w.ledger.rows[k].limit)
      && Taken(w'.log, k) == Taken(w.log, k) + if Granted(Before(steps, calls, handled, i), calls[i]) then 1 else 0
  {
    hide Run, After, Monotone, Taken, LocalDate, Granted, Before;
    OneUnit(Before(steps, calls, handled, i), calls[i], handled, k);
  }

  /** The row as it was opened, with so many units taken as the limit allows. */
  ghost predicate HasTaken(w: World, k: Key, row: UsageRow, taken: int) {
    && k in w.ledger.rows && w.ledger.rows[k].timezone == row.timezone && w.ledger.rows[k].limit == row.limit
    && Taken(w.log, k) == AtMost(taken, row.limit)
  }

  lemma NextUnit(steps: seq<Step>, calls: seq<Call>, handled: bool, k: Key, row: UsageRow, taken: int, i: nat)
    requires Monotone(steps + Consumes(calls, handled)) && i < |calls| && Before(steps, calls, handled, i) != []
    requires Units(calls, k) && During(calls, k.date, row.timezone)
    requires HasTaken(Run(Before(steps, calls, handled, i)), k, row, taken)
    ensures HasTaken(Run(Before(steps, calls, handled, i + 1)), k, row, taken + 1)
    ensures Granted(Before(steps, calls, handled, i), calls[i]) <==> taken < row.limit
  {
    BeforeMonotone(steps, calls, handled, i);
    BeforeNext(steps, calls, handled, i);
    hide Run, After, Monotone, Taken, LocalDate, Granted, Before;
    OneUnitAt(steps, calls, handled, k, i);
  }

  lemma {:induction false} UnitsFrom(steps: seq<Step>, calls: seq<Call>, handled: bool, k: Key, row: UsageRow, taken: int, j: nat, i: nat)
    requires Monotone(steps + Consumes(calls, handled)) && j <= i <= |calls| && Before(steps, calls, handled, j) != []
    requires Units(calls, k) && During(calls, k.date, row.timezone)
    requires HasTaken(Run(Before(steps, calls, handled, j)), k, row, taken)
    ensures HasTaken(Run(Before(steps, calls, handled, i)), k, row, taken + (i - j))
  {
    hide Run, Monotone, Units, During, HasTaken;
    if i > j {
      UnitsFrom(steps, calls, handled, k, row, taken, j, i - 1);
      NextUnit(steps, calls, handled, k, row, taken + (i - 1 - j), i - 1);
    }
  }

  /** From a row with so many units taken, so many of the next calls are granted. */
  lemma UnitsGranted(steps: seq<Step>, calls: seq<Call>, handled: bool, k: Key, row: UsageRow, taken: int, j: nat, i: nat)
    requires Monotone(steps + Consumes(calls, handled)) && j <= i < |calls| && Before(steps, calls, handled, j) != []
    requires Units(calls, k) && During(calls, k.date, row.timezone)
    requires HasTaken(Run(Before(steps, calls, handled, j)), k, row, taken)
    ensures Granted(Before(steps, calls, handled, i), calls[i]) <==> taken + (i - j) < row.limit
  {
    UnitsFrom(steps, calls, handled, k, row, taken, j, i);
    hide Run, Monotone, Units, During, HasTaken, Granted;
    NextUnit(steps, calls, handled, k, row, taken + (i - j), i);
  }

  lemma TakenWithin(steps: seq<Step>, k: Key)
    requires k in Run(steps).ledger.rows
    ensures Taken(Run(steps).log, k) <= Run(steps).ledger.rows[k].limit
  {
    TakenOnRow(steps, k);
    RunConserves(steps);
    hide Run, Taken;
  }

  /** The row of the calls' window as it stands, or as the first of them opens it. */
  function OpenedRow(rows: Table, call: Call): UsageRow {
    EnsureRow(rows, KeyOf(rows, call), ResolveWindow(rows, call.user, call.capability, call.now, call.timezone).zone, LimitOf(call))[KeyOf(rows, call)]
  }

  lemma FirstUnit(steps: seq<Step>, calls: seq<Call>, handled: bool)
    requires calls != [] && KeyOf(Run(steps).ledger.rows, calls[0]) !in Run(steps).ledger.rows
    requires Units(calls, KeyOf(Run(steps).ledger.rows, calls[0])) && LimitOf(calls[0]) >= 1
    ensures var k, row := KeyOf(Run(steps).ledger.rows, calls[0]), OpenedRow(Run(steps).ledger.rows, calls[0]);
      && Taken(Run(steps).log, k) == 0 && Granted(Before(steps, calls, handled, 0), calls[0])
      && HasTaken(Run(Before(steps, calls, handled, 1)), k, row, 1) && row.limit == LimitOf(calls[0])
  {
    var w, call := Run(steps), calls[0];
    var k := KeyOf(w.ledger.rows, call);
    BeforeNext(steps, calls, handled, 0);
    assert Before(steps, calls, handled, 0) == steps;
    TakenOnRow(steps, k);
    hide Run, ResolveWindow, Q.Total;
    Q.EveryTotal(w.log, Q.Entry(Q.Consumed, k, 1, call.now), k);
  }

  lemma RowAsItStands(steps: seq<Step>, calls: seq<Call>, handled: bool, k: Key)
    requires k in Run(steps).ledger.rows
    ensures HasTaken(Run(Before(steps, calls, handled, 0)), k, Run(steps).ledger.rows[k], Taken(Run(steps).log, k))
    ensures Before(steps, calls, handled, 0) == steps != []
  {
    assert Before(steps, calls, handled, 0) == steps;
    TakenWithin(steps, k);
    assert steps == [] ==> Run(steps) == EMPTY;
    hide Run, Taken;
  }

  /**
    Of single units asked for in one open window, whatever zones are sent, exactly the first are granted: as
    many as the limit has left. The window is that of the first call, which finds its row open or opens it.
   */
  lemma FirstUnitsAreGranted(steps: seq<Step>, calls: seq<Call>, handled: bool, i: nat)
    requires Monotone(steps + Consumes(calls, handled)) && i < |calls|
    requires var k := KeyOf(Run(steps).ledger.rows, calls[0]);
      && Units(calls, k) && During(calls, k.date, OpenedRow(Run(steps).ledger.rows, calls[0]).timezone)
      && (k !in Run(steps).ledger.rows ==> LimitOf(calls[0]) >= 1)
    ensures var k := KeyOf(Run(steps).ledger.rows, calls[0]);
      Granted(Before(steps, calls, handled, i), calls[i]) <==>
        Taken(Run(steps).log, k) + i < LimitFor(steps, k, LimitOf(calls[0]))
  {
    var k, row := KeyOf(Run(steps).ledger.rows, calls[0]), OpenedRow(Run(steps).ledger.rows, calls[0]);
    OpenedWithIsLimit(steps, k);
    hide Run, Monotone, Units, During, Taken, OpenedWith, ResolveWindow, Granted, HasTaken;
    if k in Run(steps).ledger.rows {
      RowAsItStands(steps, calls, handled, k);
      UnitsGranted(steps, calls, handled, k, row, Taken(Run(steps).log, k), 0, i);
    } else {
      FirstUnit(steps, calls, handled);
      if i > 0 {
        UnitsGranted(steps, calls, handled, k, row, 1, 1, i);
      }
    }
  }

  // ---------- replays, and sources that are free again ----------

  /** A replay is answered with the hold that the source has, and changes nothing; an invalid request raises. */
  lemma ReplayedIsAnswered(steps: seq<Step>, r: R.Request)
    ensures var l, e := Run(steps).ledger, R.ReserveEffect(Run(steps).ledger, r);
      var found := R.Find(l.holds, r.user, r.capability, r.source);
      && (Replayed(l, r) ==> e == R.Reply(l, R.Issued(R.TicketOf(l.holds, found.value))))
      && (!Replayed(l, r) && (r.amount < 1 || R.RequestLimit(r) < 0) ==> e == R.Reply(l, R.Raised))
  {
    RunHasRows(steps);
    hide Run, R.OpenHold, R.DropStale, R.Find;
  }

  /** A hold that is released or taken back frees its source for a new hold; a committed one never does. */
  lemma SourceIsFreed(l: R.Ledger, t: R.Ticket, r: R.Request)
    requires R.Current(l, t) && t.amount >= 1 && R.UniqueSources(l.holds)
    requires r.user == l.holds[t.id].user && r.capability == l.holds[t.id].capability && r.source == l.holds[t.id].source
    ensures !Replayed(R.ExpireEffect(l, t).ledger, r)
    ensures R.CommitEffect(l, t).result == R.Settled && t.status != R.Status.Committed ==> Replayed(R.CommitEffect(l, t).ledger, r)
  {
    var freed, kept := R.ExpireEffect(l, t).ledger, R.CommitEffect(l, t).ledger;
    hide AdjustEffect;
    FoundAt(freed.holds, r, t.id);
    if R.CommitEffect(l, t).result == R.Settled && t.status != R.Status.Committed {
      FoundAt(kept.holds, r, t.id);
    }
    hide R.Find;
  }

  lemma FoundAt(holds: seq<R.Hold>, r: R.Request, id: nat)
    requires R.UniqueSources(holds) && id < |holds|
    requires holds[id].user == r.user && holds[id].capability == r.capability && holds[id].source == r.source
    ensures R.Find(holds, r.user, r.capability, r.source) == Some(id)
  {
    if R.Find(holds, r.user, r.capability, r.source).None? {
      R.FindMisses(holds, r.user, r.capability, r.source, id);
    }
    hide R.Find;
  }
}
