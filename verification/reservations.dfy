/**
  Quota reservations: holds on a usage row that a caller later commits or releases, and that a worker
  expires. Each service call is one transaction; a raised error rolls its writes back.
 */
module Reservations {
  import opened Common
  import opened Days
  import opened Quota

  const TTL: int := 120_000_000

  datatype Status = Held | Expiring | Committed | Released

  /** A row of the reservation table; its position in the table is its id. */
  datatype Hold = Hold(user: nat, capability: Capability, source: nat, date: int, amount: int, expiresAt: int, status: Status)
  {
    function On(): Key { Key(user, date, capability) }

    predicate Live() { status == Held || status == Expiring }
  }

  datatype Ledger = Ledger(rows: Table, holds: seq<Hold>)

  datatype Request = Request(user: nat, capability: Capability, source: nat, now: int, timezone: Timezone, amount: int, limit: Option<int>)

  /** The reservation as its holder or the expiry worker remembers it. */
  datatype Ticket = Ticket(id: nat, key: Key, amount: int, status: Status)

  datatype Result = Issued(ticket: Ticket) | Exceeded | Settled | Raised
  datatype Reply = Reply(ledger: Ledger, result: Result)

  function TicketOf(holds: seq<Hold>, id: nat): Ticket
    requires id < |holds|
  {
    Ticket(id, holds[id].On(), holds[id].amount, holds[id].status)
  }

  function Find(holds: seq<Hold>, user: nat, capability: Capability, source: nat): (found: Option<nat>)
    ensures found.Some? ==>
              && found.value < |holds| && holds[found.value].user == user
              && holds[found.value].capability == capability && holds[found.value].source == source
  {
    if holds == [] then None
    else
      var last := |holds| - 1;
      if holds[last].user == user && holds[last].capability == capability && holds[last].source == source then Some(last)
      else Find(holds[..last], user, capability, source)
  }

  /** The guarded status update: only a live hold changes. */
  function Mark(holds: seq<Hold>, id: nat, to: Status): seq<Hold> {
    if id < |holds| && holds[id].Live() then holds[id := holds[id].(status := to)] else holds
  }

  function RequestLimit(r: Request): int {
    if r.limit.None? then DailyLimit(r.capability) else r.limit.value
  }

  /** Gives back what a stale live hold of the same source still has reserved. */
  function DropStale(l: Ledger, found: Option<nat>): Ledger {
    if found.Some? && found.value < |l.holds| && l.holds[found.value].Live() then
      var h := l.holds[found.value];
      Ledger(AdjustEffect(l.rows, h.On(), h.amount, Release).table, Mark(l.holds, found.value, Released))
    else l
  }

  function Place(holds: seq<Hold>, found: Option<nat>, h: Hold): seq<Hold> {
    if found.Some? && found.value < |holds| then holds[found.value := h] else holds + [h]
  }

  /** The last part of a reservation: the hold is placed and its units are claimed, or it is let go again. */
  function HoldUnits(l: Ledger, found: Option<nat>, h: Hold): Reply {
    var id := if found.Some? then found.value else |l.holds|;
    var holds := Place(l.holds, found, h);
    var reserved := AdjustEffect(l.rows, h.On(), h.amount, Reserve);
    if reserved.outcome.Done? then Reply(Ledger(reserved.table, holds), Issued(Ticket(id, h.On(), h.amount, Held)))
    else Reply(Ledger(reserved.table, Mark(holds, id, Released)), Exceeded)
  }

  /** A new hold in the window that is open now. */
  function OpenHold(l: Ledger, found: Option<nat>, r: Request): Reply {
    var w := ResolveWindow(l.rows, r.user, r.capability, r.now, r.timezone);
    var h := Hold(r.user, r.capability, r.source, w.date, r.amount, r.now + TTL, Held);
    HoldUnits(Ledger(EnsureRow(l.rows, h.On(), w.zone, RequestLimit(r)), l.holds), found, h)
  }

  /** One call of reserve; the raised errors, the exceeded limit among them, undo what it wrote. */
  function ReserveEffect(l: Ledger, r: Request): Reply {
    var found := Find(l.holds, r.user, r.capability, r.source);
    if found.Some? && l.holds[found.value].On() !in l.rows then Reply(l, Raised)
    else if found.Some? && (l.holds[found.value].status == Committed
                            || (l.holds[found.value].status == Held && l.holds[found.value].expiresAt > r.now)) then
      Reply(l, Issued(TicketOf(l.holds, found.value)))
    else if RequestLimit(r) < 0 || r.amount < 1 then Reply(l, Raised)
    else
      var reply := OpenHold(DropStale(l, found), found, r);
      if reply.result.Exceeded? then Reply(l, Exceeded) else reply
  }

  function CommitEffect(l: Ledger, t: Ticket): Reply {
    if t.status == Committed then Reply(l, Settled)
    else
      var moved := AdjustEffect(l.rows, t.key, t.amount, Commit);
      if !moved.outcome.Done? then Reply(l, Raised)
      else Reply(Ledger(moved.table, Mark(l.holds, t.id, Committed)), Settled)
  }

  /** One hold taken back by the expiry worker. */
  function ExpireEffect(l: Ledger, t: Ticket): Reply {
    if t.amount < 1 then Reply(l, Raised)
    else Reply(Ledger(AdjustEffect(l.rows, t.key, t.amount, Release).table, Mark(l.holds, t.id, Released)), Settled)
  }

  function ReleaseEffect(l: Ledger, t: Ticket): Reply {
    if t.status == Committed || t.status == Released then Reply(l, Settled) else ExpireEffect(l, t)
  }

  predicate Due(h: Hold, now: int) {
    h.Live() && h.expiresAt <= now
  }

  /** The worker claims some of the due holds, skipping rows that are locked elsewhere. */
  function ClaimEffect(l: Ledger, now: int, picked: set<nat>): Ledger {
    Ledger(l.rows, seq(|l.holds|, i requires 0 <= i < |l.holds| =>
      if i in picked && Due(l.holds[i], now) then l.holds[i].(status := Expiring) else l.holds[i]))
  }

  // ---------- what the two tables owe each other ----------

  /** What the live holds claim of one usage row. */
  function LiveOn(holds: seq<Hold>, k: Key): int {
    if holds == [] then 0
    else
      var last := holds[|holds| - 1];
      LiveOn(holds[..|holds| - 1], k) + if last.Live() && last.On() == k then last.amount else 0
  }

  function ReservedOn(rows: Table, k: Key): int {
    if k in rows then rows[k].reserved else 0
  }

  /** Every row has reserved exactly what the live holds on it claim. */
  ghost predicate Backed(l: Ledger) {
    && RowsSound(l.rows)
    && (forall i | 0 <= i < |l.holds| :: l.holds[i].amount >= 1)
    && forall k :: LiveOn(l.holds, k) == ReservedOn(l.rows, k)
  }

  /** The ticket still describes a live hold. */
  predicate Current(l: Ledger, t: Ticket) {
    t.id < |l.holds| && l.holds[t.id].Live() && l.holds[t.id].On() == t.key && l.holds[t.id].amount == t.amount
  }

  function Weight(h: Hold, k: Key): int {
    if h.Live() && h.On() == k then h.amount else 0
  }

  lemma {:induction false} LiveUpdate(holds: seq<Hold>, i: nat, h: Hold, k: Key)
    requires i < |holds|
    ensures LiveOn(holds[i := h], k) == LiveOn(holds, k) - Weight(holds[i], k) + Weight(h, k)
  {
    var n := |holds| - 1;
    if i == n {
      assert holds[i := h][..n] == holds[..n];
    } else {
      assert holds[i := h][..n] == holds[..n][i := h];
      LiveUpdate(holds[..n], i, h, k);
    }
  }

  lemma LiveAppend(holds: seq<Hold>, h: Hold, k: Key)
    ensures LiveOn(holds + [h], k) == LiveOn(holds, k) + Weight(h, k)
  {
    assert (holds + [h])[..|holds|] == holds;
  }

  lemma LiveMark(holds: seq<Hold>, id: nat, to: Status, k: Key)
    requires to == Committed || to == Released
    ensures LiveOn(Mark(holds, id, to), k) == LiveOn(holds, k) - if id < |holds| then Weight(holds[id], k) else 0
  {
    if id < |holds| && holds[id].Live() {
      LiveUpdate(holds, id, holds[id].(status := to), k);
    }
  }

  lemma {:induction false} LiveAtLeast(holds: seq<Hold>, i: nat)
    requires i < |holds| && forall j | 0 <= j < |holds| :: holds[j].amount >= 1
    ensures LiveOn(holds, holds[i].On()) >= Weight(holds[i], holds[i].On())
  {
    var n := |holds| - 1;
    if i < n {
      LiveAtLeast(holds[..n], i);
    } else {
      LiveNatural(holds[..n], holds[i].On());
    }
  }

  lemma {:induction false} LiveNatural(holds: seq<Hold>, k: Key)
    requires forall j | 0 <= j < |holds| :: holds[j].amount >= 1
    ensures LiveOn(holds, k) >= 0
  {
    if holds != [] {
      LiveNatural(holds[..|holds| - 1], k);
    }
  }

  /** What an accepted or refused counter change does to the reserved counters. */
  lemma AdjustReserved(rows: Table, k: Key, amount: int, mode: Mode, q: Key)
    ensures var e := AdjustEffect(rows, k, amount, mode);
            ReservedOn(e.table, q) == ReservedOn(rows, q)
              + if e.outcome.Done? && q == k then (if mode == Reserve then amount else -amount) else 0
    ensures RowsSound(rows) ==> RowsSound(AdjustEffect(rows, k, amount, mode).table)
  {
  }

  /** A ticket that is current is always covered by its row, so its commit is never refused. */
  lemma CurrentIsCovered(l: Ledger, t: Ticket)
    requires Backed(l) && Current(l, t)
    ensures t.key in l.rows && l.rows[t.key].reserved >= t.amount
    ensures t.status != Committed ==> CommitEffect(l, t).result == Settled
  {
    LiveAtLeast(l.holds, t.id);
    assert LiveOn(l.holds, t.key) == ReservedOn(l.rows, t.key);
  }

  lemma ClaimKeepsBacked(l: Ledger, now: int, picked: set<nat>)
    requires Backed(l)
    ensures Backed(ClaimEffect(l, now, picked))
    ensures forall t :: Current(l, t) <==> Current(ClaimEffect(l, now, picked), t)
  {
    forall k ensures LiveOn(ClaimEffect(l, now, picked).holds, k) == LiveOn(l.holds, k) {
      SameWeights(l.holds, ClaimEffect(l, now, picked).holds, k);
    }
  }

  lemma {:induction false} SameWeights(a: seq<Hold>, b: seq<Hold>, k: Key)
    requires |a| == |b| && forall i | 0 <= i < |a| :: Weight(a[i], k) == Weight(b[i], k)
    ensures LiveOn(a, k) == LiveOn(b, k)
  {
    if a != [] {
      SameWeights(a[..|a| - 1], b[..|b| - 1], k);
    }
  }

  /**
    Committing keeps the tables in step exactly when the hold is still live as remembered, or when the
    row has too little reserved and the commit is refused.
   */
  lemma CommitKeepsBackedIff(l: Ledger, t: Ticket)
    requires Backed(l) && t.amount >= 1 && t.status != Committed
    ensures Backed(CommitEffect(l, t).ledger)
       <==> Current(l, t) || ReservedOn(l.rows, t.key) < t.amount
  {
    var e := CommitEffect(l, t);
    forall k ensures LiveOn(e.ledger.holds, k) == LiveOn(l.holds, k)
                       - if e.result == Settled && t.id < |l.holds| then Weight(l.holds[t.id], k) else 0
            ensures ReservedOn(e.ledger.rows, k) == ReservedOn(l.rows, k) - if e.result == Settled && k == t.key then t.amount else 0
    {
      LiveMark(l.holds, t.id, Committed, k);
      AdjustReserved(l.rows, t.key, t.amount, Commit, k);
    }
    if e.result == Settled && !Current(l, t) {
      assert LiveOn(l.holds, t.key) == ReservedOn(l.rows, t.key);
      assert LiveOn(e.ledger.holds, t.key) == ReservedOn(e.ledger.rows, t.key) ==> Current(l, t);
    }
  }

  /**
    Taking a hold back keeps the tables in step exactly when the hold is still live as remembered, or it
    is no longer live and the row has too little reserved to be reduced.
   */
  lemma ExpireKeepsBackedIff(l: Ledger, t: Ticket)
    requires Backed(l) && t.amount >= 1
    ensures Backed(ExpireEffect(l, t).ledger)
       <==> Current(l, t) || (ReservedOn(l.rows, t.key) < t.amount && !(t.id < |l.holds| && l.holds[t.id].Live()))
  {
    var e := ExpireEffect(l, t);
    var done := ReservedOn(l.rows, t.key) >= t.amount;
    forall k ensures LiveOn(e.ledger.holds, k) == LiveOn(l.holds, k) - if t.id < |l.holds| then Weight(l.holds[t.id], k) else 0
            ensures ReservedOn(e.ledger.rows, k) == ReservedOn(l.rows, k) - if done && k == t.key then t.amount else 0
    {
      LiveMark(l.holds, t.id, Released, k);
      AdjustReserved(l.rows, t.key, t.amount, Release, k);
    }
    if Current(l, t) {
      CurrentIsCovered(l, t);
    } else {
      assert LiveOn(l.holds, t.key) == ReservedOn(l.rows, t.key);
      if t.id < |l.holds| && l.holds[t.id].Live() {
        var other := l.holds[t.id].On();
        assert LiveOn(l.holds, other) == ReservedOn(l.rows, other);
        assert Backed(e.ledger) ==> LiveOn(e.ledger.holds, other) == ReservedOn(e.ledger.rows, other);
      } else if done {
        assert LiveOn(e.ledger.holds, t.key) != ReservedOn(e.ledger.rows, t.key);
      }
    }
  }

  // ---------- reserving ----------

  lemma DropStaleKeepsBacked(l: Ledger, found: Option<nat>)
    requires Backed(l)
    ensures Backed(DropStale(l, found))
  {
    if found.Some? && found.value < |l.holds| && l.holds[found.value].Live() {
      ExpireKeepsBackedIff(l, TicketOf(l.holds, found.value));
    }
  }

  lemma PlaceLive(holds: seq<Hold>, found: Option<nat>, h: Hold, k: Key)
    requires found.Some? ==> found.value < |holds| && !holds[found.value].Live()
    ensures LiveOn(Place(holds, found, h), k) == LiveOn(holds, k) + Weight(h, k)
  {
    if found.Some? {
      LiveUpdate(holds, found.value, h, k);
    } else {
      LiveAppend(holds, h, k);
    }
  }

  lemma EnsureKeepsBacked(l: Ledger, k: Key, zone: Offset, limit: int)
    requires Backed(l) && 0 <= limit
    ensures Backed(Ledger(EnsureRow(l.rows, k, zone, limit), l.holds))
  {
    var l' := Ledger(EnsureRow(l.rows, k, zone, limit), l.holds);
    forall q ensures LiveOn(l'.holds, q) == ReservedOn(l'.rows, q) {
      assert LiveOn(l.holds, q) == ReservedOn(l.rows, q);
    }
  }

  lemma HoldUnitsBacked(l: Ledger, found: Option<nat>, h: Hold)
    requires Backed(l) && h.amount >= 1 && h.status == Held
    requires found.Some? ==> found.value < |l.holds| && !l.holds[found.value].Live()
    ensures Backed(HoldUnits(l, found, h).ledger)
    ensures var e := HoldUnits(l, found, h);
            e.result.Issued? ==> Current(e.ledger, e.result.ticket) && e.ledger.holds[e.result.ticket.id].status == Held
  {
    var r := HoldUnits(l, found, h);
    var id := if found.Some? then found.value else |l.holds|;
    forall k ensures LiveOn(r.ledger.holds, k) == ReservedOn(r.ledger.rows, k) {
      PlaceLive(l.holds, found, h, k);
      LiveMark(Place(l.holds, found, h), id, Released, k);
      AdjustReserved(l.rows, h.On(), h.amount, Reserve, k);
      assert LiveOn(l.holds, k) == ReservedOn(l.rows, k);
    }
  }

  lemma OpenHoldBacked(l: Ledger, found: Option<nat>, r: Request)
    requires Backed(l) && RequestLimit(r) >= 0 && r.amount >= 1
    requires found.Some? ==> found.value < |l.holds| && !l.holds[found.value].Live()
    ensures var e := OpenHold(l, found, r);
            && Backed(e.ledger)
            && (e.result.Issued? ==> Current(e.ledger, e.result.ticket) && e.ledger.holds[e.result.ticket.id].status == Held)
  {
    var w := ResolveWindow(l.rows, r.user, r.capability, r.now, r.timezone);
    var h := Hold(r.user, r.capability, r.source, w.date, r.amount, r.now + TTL, Held);
    hide HoldUnits, Backed, EnsureRow, ResolveWindow;
    EnsureKeepsBacked(l, h.On(), w.zone, RequestLimit(r));
    HoldUnitsBacked(Ledger(EnsureRow(l.rows, h.On(), w.zone, RequestLimit(r)), l.holds), found, h);
  }

  /** Reserving always keeps the tables in step, and a ticket it issues for a live hold is current. */
  lemma ReserveKeepsBacked(l: Ledger, r: Request)
    requires Backed(l)
    ensures Backed(ReserveEffect(l, r).ledger)
    ensures var e := ReserveEffect(l, r);
            e.result.Issued? && e.result.ticket.status != Committed ==> Current(e.ledger, e.result.ticket)
  {
    var found := Find(l.holds, r.user, r.capability, r.source);
    DropStaleKeepsBacked(l, found);
    if RequestLimit(r) >= 0 && r.amount >= 1 {
      OpenHoldBacked(DropStale(l, found), found, r);
    }
  }

  predicate UniqueSources(holds: seq<Hold>) {
    forall i, j | 0 <= i < |holds| && 0 <= j < |holds| && holds[i].user == holds[j].user
                  && holds[i].capability == holds[j].capability && holds[i].source == holds[j].source :: i == j
  }

  lemma {:induction false} FindMisses(holds: seq<Hold>, user: nat, capability: Capability, source: nat, i: nat)
    requires Find(holds, user, capability, source) == None && i < |holds|
    ensures !(holds[i].user == user && holds[i].capability == capability && holds[i].source == source)
  {
    if i < |holds| - 1 {
      FindMisses(holds[..|holds| - 1], user, capability, source, i);
    }
  }

  /** One reservation per source, and asking again while it is held returns it and changes nothing. */
  lemma ReserveIsIdempotent(l: Ledger, r: Request, again: Request)
    requires Backed(l) && UniqueSources(l.holds)
    requires ReserveEffect(l, r).result.Issued? && ReserveEffect(l, r).result.ticket.status == Held
    requires again.user == r.user && again.capability == r.capability && again.source == r.source
    requires var e := ReserveEffect(l, r); e.ledger.holds[e.result.ticket.id].expiresAt > again.now
    ensures UniqueSources(ReserveEffect(l, r).ledger.holds)
    ensures ReserveEffect(ReserveEffect(l, r).ledger, again) == ReserveEffect(l, r)
  {
    var found := Find(l.holds, r.user, r.capability, r.source);
    var e := ReserveEffect(l, r);
    var id := e.result.ticket.id;
    ReserveKeepsBacked(l, r);
    if found.None? {
      forall i: nat | i < |l.holds|
        ensures !(l.holds[i].user == r.user && l.holds[i].capability == r.capability && l.holds[i].source == r.source)
      {
        FindMisses(l.holds, r.user, r.capability, r.source, i);
      }
    }
    assert UniqueSources(e.ledger.holds);
    if Find(e.ledger.holds, r.user, r.capability, r.source).None? {
      FindMisses(e.ledger.holds, r.user, r.capability, r.source, id);
    }
    assert Find(e.ledger.holds, r.user, r.capability, r.source) == Some(id);
    CurrentIsCovered(e.ledger, e.result.ticket);
  }

  // ---------- whole runs ----------

  datatype Action =
    | Reserving(request: Request)
    | Committing(ticket: Ticket)
    | Releasing(ticket: Ticket)
    | Claiming(now: int, picked: set<nat>)
    | TakingBack(ticket: Ticket)

  function After(l: Ledger, a: Action): Ledger {
    match a
    case Reserving(r) => ReserveEffect(l, r).ledger
    case Committing(t) => CommitEffect(l, t).ledger
    case Releasing(t) => ReleaseEffect(l, t).ledger
    case Claiming(now, picked) => ClaimEffect(l, now, picked)
    case TakingBack(t) => ExpireEffect(l, t).ledger
  }

  /** What a caller can check before the step: the ticket is current, or the step will change nothing. */
  predicate Guarded(l: Ledger, a: Action) {
    match a
    case Reserving(_) => true
    case Claiming(_, _) => true
    case Committing(t) => t.status == Committed || Current(l, t) || ReservedOn(l.rows, t.key) < t.amount
    case Releasing(t) => t.status == Committed || t.status == Released || Current(l, t) || Spent(l, t)
    case TakingBack(t) => Current(l, t) || Spent(l, t)
  }

  predicate Spent(l: Ledger, t: Ticket) {
    ReservedOn(l.rows, t.key) < t.amount && !(t.id < |l.holds| && l.holds[t.id].Live())
  }

  predicate PositiveTicket(a: Action) {
    (a.Committing? || a.Releasing? || a.TakingBack?) ==> a.ticket.amount >= 1
  }

  lemma StepKeepsBackedIff(l: Ledger, a: Action)
    requires Backed(l) && PositiveTicket(a)
    ensures Backed(After(l, a)) <==> Guarded(l, a)
  {
    match a
    case Reserving(r) => ReserveKeepsBacked(l, r);
    case Claiming(now, picked) => ClaimKeepsBacked(l, now, picked);
    case Committing(t) => if t.status != Committed { CommitKeepsBackedIff(l, t); }
    case Releasing(t) => ExpireKeepsBackedIff(l, t);
    case TakingBack(t) => ExpireKeepsBackedIff(l, t);
  }

  ghost predicate BackedThroughout(l: Ledger, run: seq<Action>)
    decreases |run|
  {
    Backed(l) && (run != [] ==> BackedThroughout(After(l, run[0]), run[1..]))
  }

  predicate GuardedThroughout(l: Ledger, run: seq<Action>)
    decreases |run|
  {
    run != [] ==> Guarded(l, run[0]) && GuardedThroughout(After(l, run[0]), run[1..])
  }

  /** Over a whole run the two tables agree after every step exactly when every step was guarded. */
  lemma {:induction false} RunKeepsBackedIff(l: Ledger, run: seq<Action>)
    requires Backed(l) && forall i | 0 <= i < |run| :: PositiveTicket(run[i])
    ensures BackedThroughout(l, run) <==> GuardedThroughout(l, run)
    decreases |run|
  {
    if run != [] {
      StepKeepsBackedIff(l, run[0]);
      if Backed(After(l, run[0])) {
        RunKeepsBackedIff(After(l, run[0]), run[1..]);
      }
    }
  }

  /** When every hold is settled, nothing is left reserved anywhere. */
  lemma NothingLeaks(l: Ledger, k: Key)
    requires Backed(l) && forall i | 0 <= i < |l.holds| :: !l.holds[i].Live()
    ensures ReservedOn(l.rows, k) == 0
  {
    NoLiveHolds(l.holds, k);
    assert LiveOn(l.holds, k) == ReservedOn(l.rows, k);
  }

  lemma {:induction false} NoLiveHolds(holds: seq<Hold>, k: Key)
    requires forall i | 0 <= i < |holds| :: !holds[i].Live()
    ensures LiveOn(holds, k) == 0
  {
    if holds != [] {
      NoLiveHolds(holds[..|holds| - 1], k);
    }
  }

  // ---------- a run that breaks it ----------

  const RACE_KEY: Key := Key(0, 0, Knowledge)
  const FIRST: Ticket := Ticket(0, RACE_KEY, 1, Held)
  const SECOND: Ticket := Ticket(1, RACE_KEY, 1, Held)

  function RaceRequest(source: nat, now: int): Request {
    Request(0, Knowledge, source, now, Known(0), 1, None)
  }

  function RaceHold(source: nat, expiresAt: int, status: Status): Hold {
    Hold(0, Knowledge, source, 0, 1, expiresAt, status)
  }

  function RaceLedger(used: int, reserved: int, version: int, holds: seq<Hold>): Ledger {
    Ledger(map[RACE_KEY := UsageRow(0, used, reserved, 10, version)], holds)
  }

  lemma RaceReserves()
    ensures ReserveEffect(Ledger(map[], []), RaceRequest(1, 0))
         == Reply(RaceLedger(0, 1, 2, [RaceHold(1, TTL, Held)]), Issued(FIRST))
  {
    assert OpenDates(map[], 0, Knowledge, 0) == {};
    assert LocalDate(0, 0) == 0;
  }

  lemma RaceReservesAgain(l: Ledger)
    requires l == RaceLedger(0, 1, 2, [RaceHold(1, TTL, Held)])
    ensures ReserveEffect(l, RaceRequest(2, TTL))
         == Reply(RaceLedger(0, 2, 3, [RaceHold(1, TTL, Held), RaceHold(2, 2 * TTL, Held)]), Issued(SECOND))
  {
    assert IsOpen(RACE_KEY, l.rows[RACE_KEY], TTL);
    assert 0 in OpenDates(l.rows, 0, Knowledge, TTL);
    assert Find(l.holds, 0, Knowledge, 2) == None;
    var w := ResolveWindow(l.rows, 0, Knowledge, TTL, Known(0));
    assert Key(0, w.date, Knowledge) in l.rows;
    assert w == Window(0, 0);
  }

  lemma EmptyIsBacked()
    ensures Backed(Ledger(map[], []))
  {
  }

  lemma RaceEnds(l: Ledger)
    requires l == RaceLedger(0, 2, 3, [RaceHold(1, TTL, Held), RaceHold(2, 2 * TTL, Held)])
    ensures var l3 := ClaimEffect(l, TTL, {0});
            var l4 := CommitEffect(l3, FIRST).ledger;
            var l5 := ExpireEffect(l4, FIRST).ledger;
            && Current(l3, FIRST) && CommitEffect(l5, SECOND).result == Raised
            && l3 == RaceLedger(0, 2, 3, [RaceHold(1, TTL, Expiring), RaceHold(2, 2 * TTL, Held)])
            && l4 == RaceLedger(1, 1, 4, [RaceHold(1, TTL, Committed), RaceHold(2, 2 * TTL, Held)])
            && l5 == RaceLedger(1, 0, 5, l4.holds)
  {
    hide OpenDates, LocalDate;
    var l3 := ClaimEffect(l, TTL, {0});
    assert l3.holds == [RaceHold(1, TTL, Expiring), RaceHold(2, 2 * TTL, Held)];
    assert CommitEffect(l3, FIRST).ledger == RaceLedger(1, 1, 4, [RaceHold(1, TTL, Committed), RaceHold(2, 2 * TTL, Held)]);
  }

  /**
    The guard can fail in practice. A hold is claimed by the worker, then committed by its holder, then
    taken back by the worker all the same: the units released are those of another hold, whose own commit
    then finds nothing reserved and raises.
   */
  lemma CommitBetweenClaimAndExpiry()
    ensures var l1 := ReserveEffect(Ledger(map[], []), RaceRequest(1, 0)).ledger;
            var l2 := ReserveEffect(l1, RaceRequest(2, TTL)).ledger;
            var l3 := ClaimEffect(l2, TTL, {0});
            var l4 := CommitEffect(l3, FIRST).ledger;
            var l5 := ExpireEffect(l4, FIRST).ledger;
            && Current(l3, FIRST) && Backed(l4) && !Backed(l5)
            && |l5.holds| == 2 && l5.holds[1].status == Held && CommitEffect(l5, SECOND).result == Raised
  {
    hide ReserveEffect, ClaimEffect, CommitEffect, ExpireEffect, Backed, LiveOn;
    RaceReserves();
    var l0 := Ledger(map[], []);
    var l1 := ReserveEffect(l0, RaceRequest(1, 0)).ledger;
    RaceReservesAgain(l1);
    var l2 := ReserveEffect(l1, RaceRequest(2, TTL)).ledger;
    RaceEnds(l2);
    var l3 := ClaimEffect(l2, TTL, {0});
    var l4 := CommitEffect(l3, FIRST).ledger;
    EmptyIsBacked();
    ReserveKeepsBacked(l0, RaceRequest(1, 0));
    ReserveKeepsBacked(l1, RaceRequest(2, TTL));
    ClaimKeepsBacked(l2, TTL, {0});
    CommitKeepsBackedIff(l3, FIRST);
    ExpireKeepsBackedIff(l4, FIRST);
  }
}
