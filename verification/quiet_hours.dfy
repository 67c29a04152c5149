/**
  Quiet hours: a daily interval of local time, possibly over midnight, in which nothing is pushed. A push
  planned inside waits for the end of the interval.
 */
module QuietHours {
  import opened Days

  type TimeOfDay = t: int | 0 <= t < 86_400_000_000 witness 0

  function LocalTime(now: int, zone: Offset): TimeOfDay {
    (now + zone) % 86_400_000_000
  }

  predicate InDnd(now: int, zone: Offset, start: TimeOfDay, end: TimeOfDay) {
    var t := LocalTime(now, zone);
    if start <= end then start <= t < end else t >= start || t < end
  }

  /** The instant at which the zone's clocks show a time on a date. */
  function Combine(date: int, t: TimeOfDay, zone: Offset): int {
    date * 86_400_000_000 + t - zone
  }

  function NextDndEnd(now: int, zone: Offset, start: TimeOfDay, end: TimeOfDay): int {
    var endToday := Combine(LocalDate(now, zone), end, zone);
    if start > end then
      if LocalTime(now, zone) >= start then endToday + DAY else endToday
    else if LocalTime(now, zone) < end then endToday
    else endToday + DAY
  }

  function ScheduledFor(now: int, zone: Offset, start: TimeOfDay, end: TimeOfDay): int {
    if InDnd(now, zone, start, end) then NextDndEnd(now, zone, start, end) else now
  }

  /** How long the quiet hours last; equal ends mean there are none. */
  function Length(start: TimeOfDay, end: TimeOfDay): (n: int)
    ensures 0 <= n < 86_400_000_000
  {
    if start <= end then end - start else end + 86_400_000_000 - start
  }

  /** t is the first instant from now on that lies outside the quiet hours. */
  ghost predicate IsLeastOutside(t: int, now: int, zone: Offset, start: TimeOfDay, end: TimeOfDay) {
    && t >= now
    && !InDnd(t, zone, start, end)
    && forall u | now <= u < t :: InDnd(u, zone, start, end)
  }

  /**
    For every interval, plain, over midnight or empty, a push is planned for the first instant outside of it,
    which is never further off than the interval is long.
   */
  lemma ScheduledIsLeast(now: int, zone: Offset, start: TimeOfDay, end: TimeOfDay)
    ensures var t := ScheduledFor(now, zone, start, end);
      IsLeastOutside(t, now, zone, start, end) && t - now <= Length(start, end)
  {
  }

  lemma LeastIsUnique(now: int, zone: Offset, start: TimeOfDay, end: TimeOfDay, t: int)
    requires IsLeastOutside(t, now, zone, start, end)
    ensures t == ScheduledFor(now, zone, start, end)
  {
    ScheduledIsLeast(now, zone, start, end);
  }

  /** Planning again changes nothing, and a later moment is never planned for an earlier one. */
  lemma ScheduledIsStableAndMonotone(now: int, later: int, zone: Offset, start: TimeOfDay, end: TimeOfDay)
    requires now <= later
    ensures var t := ScheduledFor(now, zone, start, end);
      && ScheduledFor(t, zone, start, end) == t
      && t <= ScheduledFor(later, zone, start, end)
      && (later <= t ==> ScheduledFor(later, zone, start, end) == t)
  {
    hide ScheduledFor, InDnd;
    ScheduledIsLeast(now, zone, start, end);
    ScheduledIsLeast(later, zone, start, end);
    var t := ScheduledFor(now, zone, start, end);
    ScheduledIsLeast(t, zone, start, end);
    LeastIsUnique(t, zone, start, end, t);
    if later <= t {
      LeastIsUnique(later, zone, start, end, t);
    }
  }

  /**
    Asked outside the quiet hours, the end that is computed lies ahead exactly when the interval does not run
    over midnight; over midnight it is the end that has just passed.
   */
  lemma NextEndIsAheadIff(now: int, zone: Offset, start: TimeOfDay, end: TimeOfDay)
    ensures NextDndEnd(now, zone, start, end) > now <==> start <= end || InDnd(now, zone, start, end)
    ensures LocalTime(NextDndEnd(now, zone, start, end), zone) == end
    ensures -DAY < NextDndEnd(now, zone, start, end) - now <= DAY
  {
  }

  // ---------- the quiet hours as stretches of time ----------

  /** The quiet hours that begin on a date: from when the zone's clocks show start, for their whole length. */
  predicate InStretch(now: int, date: int, zone: Offset, start: TimeOfDay, end: TimeOfDay) {
    Combine(date, start, zone) <= now < Combine(date, start, zone) + Length(start, end)
  }

  /** An instant is quiet if and only if it lies in the stretch that began on its date or the day before. */
  lemma QuietIff(now: int, zone: Offset, start: TimeOfDay, end: TimeOfDay)
    ensures InDnd(now, zone, start, end)
       <==> exists date | LocalDate(now, zone) - 1 <= date <= LocalDate(now, zone) :: InStretch(now, date, zone, start, end)
    ensures forall date | InStretch(now, date, zone, start, end) :: LocalDate(now, zone) - 1 <= date <= LocalDate(now, zone)
    ensures forall date, other | InStretch(now, date, zone, start, end) && InStretch(now, other, zone, start, end) :: date == other
  {
    var today := LocalDate(now, zone);
    assert now + zone == today * 86_400_000_000 + LocalTime(now, zone);
    assert InDnd(now, zone, start, end) <==> InStretch(now, today, zone, start, end) || InStretch(now, today - 1, zone, start, end);
    hide InDnd;
  }

  /** Whatever falls into a stretch is planned for its end, where the zone's clocks show end. */
  lemma StretchEndsAtEnd(now: int, date: int, zone: Offset, start: TimeOfDay, end: TimeOfDay)
    requires InStretch(now, date, zone, start, end)
    ensures ScheduledFor(now, zone, start, end) == Combine(date, start, zone) + Length(start, end)
    ensures LocalTime(Combine(date, start, zone) + Length(start, end), zone) == end
    ensures LocalTime(Combine(date, start, zone), zone) == start
  {
    QuietIff(now, zone, start, end);
  }

  /** So from the instant at which the clocks show start the wait is exactly the whole length. */
  lemma WaitsWholeLength(date: int, zone: Offset, start: TimeOfDay, end: TimeOfDay)
    ensures var begin := Combine(date, start, zone);
      ScheduledFor(begin, zone, start, end) == begin + Length(start, end)
    ensures Length(start, end) == 0 <==> start == end
  {
    if start != end {
      StretchEndsAtEnd(Combine(date, start, zone), date, zone, start, end);
    }
  }
}
