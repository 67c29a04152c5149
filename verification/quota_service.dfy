/** The quota service over the two tables, statement by statement; a raised error leaves both as they were. */
module QuotaService {
  import opened Common
  import opened Days
  import opened Quota
  import opened Reservations

  /** The due hold that expired first, among those not taken. */
  function NextDue(holds: seq<Hold>, now: int, taken: set<nat>): (next: Option<nat>)
    ensures next.Some? ==> next.value < |holds| && next.value !in taken && Due(holds[next.value], now)
    ensures forall j: nat | j < |holds| && j !in taken && Due(holds[j], now) ::
              next.Some? && holds[next.value].expiresAt <= holds[j].expiresAt
  {
    if holds == [] then None
    else
      var last := |holds| - 1;
      var earlier := NextDue(holds[..last], now, taken);
      if last in taken || !Due(holds[last], now) then earlier
      else if earlier.None? || holds[last].expiresAt < holds[earlier.value].expiresAt then Some(last)
      else earlier
  }

  /** The holds that one claim picks, in order. */
  function Picked(holds: seq<Hold>, now: int, limit: nat, taken: set<nat>): (ids: seq<nat>)
    ensures |ids| <= limit
    ensures forall i | 0 <= i < |ids| :: ids[i] < |holds| && ids[i] !in taken && Due(holds[ids[i]], now)
  {
    var next := NextDue(holds, now, taken);
    if limit == 0 || next.None? then [] else [next.value] + Picked(holds, now, limit - 1, taken + {next.value})
  }

  lemma {:induction false} PickedExact(holds: seq<Hold>, now: int, limit: nat, taken: set<nat>)
    ensures var ids := Picked(holds, now, limit, taken);
      && (forall i, j | 0 <= i < j < |ids| :: ids[i] != ids[j])
      && (forall j: nat | j < |holds| && j !in taken && j !in ids && Due(holds[j], now) ::
            |ids| == limit && forall i | 0 <= i < limit :: holds[ids[i]].expiresAt <= holds[j].expiresAt)
    decreases limit
  {
    var next := NextDue(holds, now, taken);
    if limit > 0 && next.Some? {
      PickedExact(holds, now, limit - 1, taken + {next.value});
    }
  }

  class Service {
    const usage: DailyUsage
    var holds: seq<Hold>

    ghost function State(): Ledger
      reads this, usage
    {
      Ledger(usage.rows, holds)
    }

    constructor ()
      ensures fresh(usage) && State() == Ledger(map[], [])
    {
      usage := new DailyUsage();
      holds := [];
    }

    method MarkReservation(id: nat, to: Status)
      modifies this
      ensures holds == Mark(old(holds), id, to)
    {
      if id < |holds| && (holds[id].status == Held || holds[id].status == Expiring) {
        holds := holds[id := holds[id].(status := to)];
      }
    }

    method Reserve(r: Request) returns (result: Result)
      modifies this, usage
      ensures Reply(State(), result) == ReserveEffect(old(State()), r)
    {
      var savedRows, savedHolds := usage.rows, holds;
      var existing := Find(holds, r.user, r.capability, r.source);
      if existing.Some? {
        var h := holds[existing.value];
        if h.On() !in usage.rows {
          return Raised;
        }
        if h.status == Committed || (h.status == Held && h.expiresAt > r.now) {
          return Issued(TicketOf(holds, existing.value));
        }
      }
      var limit := if r.limit.None? then DailyLimit(r.capability) else r.limit.value;
      if limit < 0 || r.amount < 1 {
        return Raised;
      }
      if existing.Some? && holds[existing.value].Live() {
        var h := holds[existing.value];
        var _ := usage.ApplyReservedDelta(h.On(), h.amount, Mode.Release);
        MarkReservation(existing.value, Released);
      }
      var w := usage.ResolveUsageWindow(r.user, r.capability, r.now, r.timezone);
      var k := Key(r.user, w.date, r.capability);
      usage.EnsureUsageRow(k, w.zone, limit);
      var h := Hold(r.user, r.capability, r.source, w.date, r.amount, r.now + TTL, Held);
      var id := |holds|;
      if existing.Some? {
        id := existing.value;
        holds := holds[id := h];
      } else {
        holds := holds + [h];
      }
      var outcome := usage.ApplyReservedDelta(k, r.amount, Mode.Reserve);
      if !outcome.Done? {
        MarkReservation(id, Released);
        usage.rows, holds := savedRows, savedHolds;
        return Exceeded;
      }
      return Issued(Ticket(id, k, r.amount, Held));
    }

    method Commit(t: Ticket) returns (result: Result)
      modifies this, usage
      ensures Reply(State(), result) == CommitEffect(old(State()), t)
    {
      if t.status == Committed {
        return Settled;
      }
      var outcome := usage.ApplyReservedDelta(t.key, t.amount, Mode.Commit);
      if !outcome.Done? {
        return Raised;
      }
      MarkReservation(t.id, Committed);
      return Settled;
    }

    method Release(t: Ticket) returns (result: Result)
      modifies this, usage
      ensures Reply(State(), result) == ReleaseEffect(old(State()), t)
    {
      if t.status == Committed || t.status == Released {
        return Settled;
      }
      result := ExpireClaimed(t);
    }

    /** Claims up to limit of the due holds, the longest expired first; the holds in locked are skipped. */
    method ClaimExpired(now: int, limit: nat, locked: set<nat>) returns (tickets: seq<Ticket>, ghost picked: set<nat>)
      modifies this
      ensures State() == ClaimEffect(old(State()), now, picked)
      ensures |tickets| <= limit && forall i, j | 0 <= i < j < |tickets| :: tickets[i].id != tickets[j].id
      ensures forall i | 0 <= i < |tickets| :: tickets[i].id in picked && Current(State(), tickets[i])
      ensures forall id | id in picked :: exists i :: 0 <= i < |tickets| && tickets[i].id == id
      ensures forall id | id in picked :: id < |holds| && id !in locked && Due(old(holds)[id], now)
      ensures forall i: nat, j: nat | i in picked && j < |holds| && j !in picked + locked && Due(old(holds)[j], now) ::
                i < |holds| && old(holds)[i].expiresAt <= old(holds)[j].expiresAt
      ensures |tickets| < limit ==> forall j: nat | j < |holds| && j !in locked && Due(old(holds)[j], now) :: j in picked
    {
      var before := holds;
      var ids := Picked(before, now, limit, locked);
      PickedExact(before, now, limit, locked);
      hide NextDue, Picked;
      picked := set id | id in ids;
      var claimed := seq(|before|, i requires 0 <= i < |before| =>
        if i in ids then before[i].(status := Expiring) else before[i]);
      holds := claimed;
      tickets := seq(|ids|, i requires 0 <= i < |ids| && ids[i] < |claimed| => TicketOf(claimed, ids[i]));
      assert ClaimEffect(Ledger(usage.rows, before), now, picked).holds == claimed;
      forall i | 0 <= i < |tickets| ensures tickets[i].id in picked && Current(State(), tickets[i]) {
        assert tickets[i].id == ids[i] && before[ids[i]].Live();
      }
      forall id | id in picked ensures exists i :: 0 <= i < |tickets| && tickets[i].id == id {
        var i :| 0 <= i < |ids| && ids[i] == id;
        assert tickets[i].id == id;
      }
      forall id | id in picked ensures id < |before| && id !in locked && Due(before[id], now) {
        var i :| 0 <= i < |ids| && ids[i] == id;
      }
    }

    method ExpireClaimed(t: Ticket) returns (result: Result)
      modifies this, usage
      ensures Reply(State(), result) == ExpireEffect(old(State()), t)
    {
      if t.amount < 1 {
        return Raised;
      }
      var _ := usage.ApplyReservedDelta(t.key, t.amount, Mode.Release);
      MarkReservation(t.id, Released);
      return Settled;
    }
  }
}
