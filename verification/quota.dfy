/** Local calendar days in zones of a fixed offset. Instants are whole microseconds since the epoch. */
module Days {
  const HOUR: int := 3_600_000_000
  const DAY: int := 86_400_000_000
  const WEST: int := -43_200_000_000
  const EAST: int := 50_400_000_000

  /** A zone is its offset from UTC, between UTC-12 and UTC+14. */
  type Offset = o: int | -43_200_000_000 <= o <= 50_400_000_000 witness 0

  function LocalDate(now: int, zone: Offset): (date: int)
    ensures date * 86_400_000_000 <= now + zone < (date + 1) * 86_400_000_000
  {
    (now + zone) / 86_400_000_000
  }

  /** The first instant after the local day, which is when its usage row closes. */
  function ResetAt(date: int, zone: Offset): int {
    (date + 1) * 86_400_000_000 - zone
  }
}

/**
  The daily usage table: one row per user, local date and capability. Every repository call is one
  atomic step on the table.
 */
module Quota {
  import opened Common
  import opened Days

  datatype Capability =
    | Chat | Asr | Tts | Sight | Search | Food | Knowledge | Emotion | Visit | Pact

  /** A zone name as stored or sent: a known zone, or a name no zone database knows. */
  datatype Timezone = Known(offset: Offset) | Unknown

  const DEFAULT_OFFSET: Offset := 28_800_000_000

  datatype Key = Key(user: nat, date: int, capability: Capability)
  datatype UsageRow = UsageRow(timezone: Offset, used: int, reserved: int, limit: int, version: int)
  type Table = map<Key, UsageRow>

  datatype Window = Window(date: int, zone: Offset)
  datatype Call = Call(user: nat, capability: Capability, now: int, timezone: Timezone, amount: int, limit: Option<int>)
  datatype Mode = Reserve | Release | Commit | Unsupported

  /** Done carries the row as the statement returned it; Rejected stands for the raised errors. */
  datatype Outcome = Done(key: Key, row: UsageRow) | Refused | Rejected
  datatype Effect = Effect(table: Table, outcome: Outcome)

  function CoerceTimezone(timezone: Timezone): Offset {
    match timezone
    case Known(offset) => offset
    case Unknown => DEFAULT_OFFSET
  }

  function DailyLimit(capability: Capability): int {
    match capability
    case Chat => 100
    case Asr => 60
    case Tts => 20
    case Sight => 2
    case Search => 20
    case Food => 3
    case Knowledge => 10
    case Emotion => 10
    case Visit => 3
    case Pact => 1
  }

  function LimitOf(call: Call): int {
    if call.limit.None? then DailyLimit(call.capability) else call.limit.value
  }

  predicate IsOpen(k: Key, row: UsageRow, now: int) {
    ResetAt(k.date, row.timezone) > now
  }

  function OpenDates(t: Table, user: nat, capability: Capability, now: int): set<int> {
    set k | k in t.Keys && k.user == user && k.capability == capability && IsOpen(k, t[k], now) :: k.date
  }

  lemma {:induction false} MaxExists(s: set<int>)
    requires s != {}
    ensures exists m :: m in s && forall x | x in s :: x <= m
  {
    var y := Pick(s);
    var rest := s - {y};
    if rest == {} {
      assert s == {y};
    } else {
      MaxExists(rest);
      var m :| m in rest && forall x | x in rest :: x <= m;
      var top := if m < y then y else m;
      assert forall x | x in s :: x == y || x in rest;
      assert top in s && forall x | x in s :: x <= top;
    }
  }

  function Latest(s: set<int>): (m: int)
    requires s != {}
    ensures m in s && forall x | x in s :: x <= m
  {
    MaxExists(s);
    var m :| m in s && forall x | x in s :: x <= m;
    m
  }

  function ResolveWindow(t: Table, user: nat, capability: Capability, now: int, timezone: Timezone): (w: Window)
    ensures OpenDates(t, user, capability, now) == {} ==>
              w == Window(LocalDate(now, CoerceTimezone(timezone)), CoerceTimezone(timezone))
    ensures OpenDates(t, user, capability, now) != {} ==>
              && var k := Key(user, w.date, capability);
              && k in t && w.zone == t[k].timezone && IsOpen(k, t[k], now)
              && forall d | d in OpenDates(t, user, capability, now) :: d <= w.date
  {
    var zone := CoerceTimezone(timezone);
    var open := OpenDates(t, user, capability, now);
    if open == {} then Window(LocalDate(now, zone), zone)
    else
      var date := Latest(open);
      Window(date, t[Key(user, date, capability)].timezone)
  }

  function EnsureRow(t: Table, k: Key, zone: Offset, limit: int): Table {
    if k in t then t else t[k := UsageRow(zone, 0, 0, limit, 1)]
  }

  function ConsumeEffect(t: Table, call: Call): Effect {
    if call.amount < 1 || LimitOf(call) < 0 then Effect(t, Rejected)
    else
      var w := ResolveWindow(t, call.user, call.capability, call.now, call.timezone);
      var k := Key(call.user, w.date, call.capability);
      var ensured := EnsureRow(t, k, w.zone, LimitOf(call));
      var row := ensured[k];
      if row.used + row.reserved + call.amount <= row.limit then
        var charged := row.(used := row.used + call.amount, version := row.version + 1);
        Effect(ensured[k := charged], Done(k, charged))
      else Effect(ensured, Refused)
  }

  function AdjustEffect(t: Table, k: Key, amount: int, mode: Mode): Effect {
    if amount < 1 || mode == Unsupported then Effect(t, Rejected)
    else if k !in t then Effect(t, Refused)
    else
      var row := t[k];
      var allowed := if mode == Reserve then row.used + row.reserved + amount <= row.limit else row.reserved >= amount;
      if !allowed then Effect(t, Refused)
      else
        var next := match mode
          case Reserve => row.(reserved := row.reserved + amount, version := row.version + 1)
          case Release => row.(reserved := row.reserved - amount, version := row.version + 1)
          case _ => row.(reserved := row.reserved - amount, used := row.used + amount, version := row.version + 1);
        Effect(t[k := next], Done(k, next))
  }

  /** What the table's own checks and the guarded updates keep true of every row. */
  predicate RowsSound(t: Table) {
    forall k | k in t :: 0 <= t[k].used && 0 <= t[k].reserved && t[k].used + t[k].reserved <= t[k].limit
  }

  /** The table as the repository sees it, changed one statement at a time. */
  class DailyUsage {
    var rows: Table

    constructor ()
      ensures rows == map[]
    {
      rows := map[];
    }

    method ResolveUsageWindow(user: nat, capability: Capability, now: int, timezone: Timezone) returns (w: Window)
      ensures w == ResolveWindow(rows, user, capability, now, timezone)
    {
      var zone := CoerceTimezone(timezone);
      var open := OpenDates(rows, user, capability, now);
      if open != {} {
        var date := Latest(open);
        return Window(date, rows[Key(user, date, capability)].timezone);
      }
      return Window(LocalDate(now, zone), zone);
    }

    method EnsureUsageRow(k: Key, zone: Offset, limit: int)
      requires 0 <= limit
      modifies this
      ensures rows == EnsureRow(old(rows), k, zone, limit)
    {
      if k !in rows {
        rows := rows[k := UsageRow(zone, 0, 0, limit, 1)];
      }
    }

    method Consume(call: Call) returns (outcome: Outcome)
      modifies this
      ensures Effect(rows, outcome) == ConsumeEffect(old(rows), call)
    {
      if call.amount < 1 {
        return Rejected;
      }
      var limit := if call.limit.None? then DailyLimit(call.capability) else call.limit.value;
      if limit < 0 {
        return Rejected;
      }
      var w := ResolveUsageWindow(call.user, call.capability, call.now, call.timezone);
      var k := Key(call.user, w.date, call.capability);
      EnsureUsageRow(k, w.zone, limit);
      outcome := Refused;
      var row := rows[k];
      if row.used + row.reserved + call.amount <= row.limit {
        row := row.(used := row.used + call.amount, version := row.version + 1);
        rows := rows[k := row];
        outcome := Done(k, row);
      }
    }

    method ApplyReservedDelta(k: Key, amount: int, mode: Mode) returns (outcome: Outcome)
      modifies this
      ensures Effect(rows, outcome) == AdjustEffect(old(rows), k, amount, mode)
    {
      if amount < 1 {
        return Rejected;
      }
      if mode == Unsupported {
        return Rejected;
      }
      outcome := Refused;
      if k in rows {
        var row := rows[k];
        match mode {
          case Reserve =>
            if row.used + row.reserved + amount <= row.limit {
              row := row.(reserved := row.reserved + amount, version := row.version + 1);
              outcome := Done(k, row);
            }
          case Release =>
            if row.reserved >= amount {
              row := row.(reserved := row.reserved - amount, version := row.version + 1);
              outcome := Done(k, row);
            }
          case Commit =>
            if row.reserved >= amount {
              row := row.(reserved := row.reserved - amount, used := row.used + amount, version := row.version + 1);
              outcome := Done(k, row);
            }
          case Unsupported =>
        }
        rows := rows[k := row];
      }
    }
  }
}
