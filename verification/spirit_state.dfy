/**
  Settling a spirit's status from how long it has been idle. Bootstrap settles lazily and the scheduler
  settles on every tick; both must end in the same state. Instants are whole microseconds.
 */
module SpiritState {
  import opened Common

  const IDLE_STUDY_OR_AWAY: int := 64_800_000_000
  const IDLE_LOST: int := 259_200_000_000

  datatype Status = Home | Away | Study | Lost

  datatype Snapshot = Snapshot(
    status: Status,
    lastInteractAt: int,
    studyUntil: Option<int>,
    awayUntil: Option<int>,
    hasBeenLost: bool,
    visitOn: bool,
    hasDueStudyTask: bool)

  datatype Patch = Patch(status: Status, studyUntil: Option<int>, awayUntil: Option<int>, hasBeenLost: bool)

  predicate UntilActive(until: Option<int>, now: int) {
    until.Some? && until.value > now
  }

  function KeptUntil(until: Option<int>, now: int): Option<int> {
    if UntilActive(until, now) then until else None
  }

  function DesiredState(current: Snapshot, now: int): Patch {
    var idle := if now - current.lastInteractAt < 0 then 0 else now - current.lastInteractAt;
    if idle >= IDLE_LOST then Patch(Lost, None, None, true)
    else if idle >= IDLE_STUDY_OR_AWAY then
      if current.hasDueStudyTask then Patch(Study, KeptUntil(current.studyUntil, now), None, current.hasBeenLost)
      else if current.visitOn then Patch(Away, None, KeptUntil(current.awayUntil, now), current.hasBeenLost)
      else Patch(Study, KeptUntil(current.studyUntil, now), None, current.hasBeenLost)
    else if current.status == Lost then Patch(Lost, None, None, true)
    else if UntilActive(current.studyUntil, now) then Patch(Study, current.studyUntil, None, current.hasBeenLost)
    else if UntilActive(current.awayUntil, now) then Patch(Away, None, current.awayUntil, current.hasBeenLost)
    else Patch(Home, None, None, current.hasBeenLost)
  }

  /** One settle: the patch is written over the row; interaction time and flags stay. */
  function Settle(s: Snapshot, now: int): Snapshot {
    var p := DesiredState(s, now);
    s.(status := p.status, studyUntil := p.studyUntil, awayUntil := p.awayUntil, hasBeenLost := p.hasBeenLost)
  }

  function SettleAll(s: Snapshot, times: seq<int>): Snapshot
    decreases |times|
  {
    if times == [] then s else SettleAll(Settle(s, times[0]), times[1..])
  }

  predicate Ordered(times: seq<int>) {
    forall i, j | 0 <= i <= j < |times| :: times[i] <= times[j]
  }

  /** At most one until is set; a lost spirit has none and is known to have been lost. */
  predicate WellFormed(s: Snapshot) {
    && (s.studyUntil == None || s.awayUntil == None)
    && (s.status == Lost ==> s.studyUntil == None && s.awayUntil == None && s.hasBeenLost)
  }

  /** The instant at which idling starts to count. */
  function IdleFrom(s: Snapshot): int {
    s.lastInteractAt + IDLE_STUDY_OR_AWAY
  }

  predicate OutlastsIdle(until: Option<int>, s: Snapshot) {
    until.Some? && until.value > IdleFrom(s)
  }

  predicate GoesAway(s: Snapshot) {
    s.visitOn && !s.hasDueStudyTask
  }

  /** What can be read off a row to tell whether the ticks in between can matter. */
  predicate Settleable(s: Snapshot) {
    if s.status == Lost then
      && s.hasBeenLost
      && !OutlastsIdle(if GoesAway(s) then s.awayUntil else s.studyUntil, s)
    else
      s.studyUntil.Some? && s.awayUntil.Some? ==>
        && (s.studyUntil.value >= s.awayUntil.value || s.studyUntil.value >= IdleFrom(s))
        && !(GoesAway(s) && OutlastsIdle(s.awayUntil, s))
  }

  ghost predicate PathIndependent(s: Snapshot) {
    forall times: seq<int> | times != [] && Ordered(times) :: SettleAll(s, times) == Settle(s, times[|times| - 1])
  }

  lemma TwoSettles(s: Snapshot, t: int, u: int)
    requires Settleable(s) && t <= u
    ensures Settle(Settle(s, t), u) == Settle(s, u)
  {
  }

  lemma {:induction false} AllSettles(s: Snapshot, times: seq<int>)
    requires Settleable(s) && times != [] && Ordered(times)
    ensures SettleAll(s, times) == Settle(s, times[|times| - 1])
  {
    var last := |times| - 1;
    if last > 0 {
      SettleSnoc(s, times[..last], times[last]);
      assert times[..last] + [times[last]] == times;
      AllSettles(s, times[..last]);
      TwoSettles(s, times[last - 1], times[last]);
    } else {
      assert times[1..] == [];
    }
  }

  lemma {:induction false} SettleSnoc(s: Snapshot, times: seq<int>, t: int)
    ensures SettleAll(s, times + [t]) == Settle(SettleAll(s, times), t)
    decreases |times|
  {
    if times == [] {
      assert ([] + [t])[1..] == [];
    } else {
      assert (times + [t])[1..] == times[1..] + [t];
      SettleSnoc(Settle(s, times[0]), times[1..], t);
    }
  }

  /** A pair of ticks that shows the difference when the row is not settleable. */
  lemma Witness(s: Snapshot) returns (t: int, u: int)
    requires !Settleable(s)
    ensures t <= u && Settle(Settle(s, t), u) != Settle(s, u)
  {
    t := IdleFrom(s) - 1;
    u := IdleFrom(s);
    if s.status != Lost {
      if s.studyUntil.value <= t {
        t := s.studyUntil.value - 1;
      }
      if s.studyUntil.value < s.awayUntil.value && s.studyUntil.value < IdleFrom(s) {
        u := s.studyUntil.value;
      }
    }
  }

  /**
    Lazy and eager settling agree from a row, for every sequence of ticks, exactly when the row is
    settleable.
   */
  lemma PathIndependentIff(s: Snapshot)
    ensures PathIndependent(s) <==> Settleable(s)
  {
    if Settleable(s) {
      forall times: seq<int> | times != [] && Ordered(times) ensures SettleAll(s, times) == Settle(s, times[|times| - 1]) {
        AllSettles(s, times);
      }
    } else {
      var t, u := Witness(s);
      var times := [t, u];
      assert [t] + [u] == times && [t][1..] == [];
      SettleSnoc(s, [t], u);
      assert Ordered(times);
    }
  }

  /** Rows as the system writes them are settleable, and a settle always leaves such a row. */
  lemma SettleLeavesWellFormed(s: Snapshot, now: int)
    ensures WellFormed(Settle(s, now))
    ensures WellFormed(s) ==> Settleable(s)
  {
  }

  /** So after one settle of any row whatever, every later sequence of ticks ends like its last one alone. */
  lemma TicksAfterSettleAgree(s: Snapshot, now: int, times: seq<int>)
    requires times != [] && Ordered(times)
    ensures SettleAll(s, [now] + times) == Settle(Settle(s, now), times[|times| - 1])
  {
    SettleLeavesWellFormed(s, now);
    SettleLeavesWellFormed(Settle(s, now), now);
    assert ([now] + times)[1..] == times;
    AllSettles(Settle(s, now), times);
  }

  /** A spirit that a tick finds idle for 72 hours is lost, and later ticks keep it so as long as it has no interaction. */
  lemma LostByIdlingStaysLost(s: Snapshot, times: seq<int>)
    requires times != [] && Ordered(times) && times[0] - s.lastInteractAt >= IDLE_LOST
    ensures SettleAll(s, times).status == Lost && SettleAll(s, times).hasBeenLost
  {
    var first := Settle(s, times[0]);
    if |times| > 1 {
      assert [times[0]] + times[1..] == times;
      TicksAfterSettleAgree(s, times[0], times[1..]);
    } else {
      assert times[1..] == [];
    }
  }

  /**
    Lost is not absorbing: a lost row whose last interaction lies between 18 and 72 hours back settles to
    study or away, and every other lost row stays lost.
   */
  lemma LostIsLeftInTheMiddleBand(s: Snapshot, now: int)
    requires s.status == Lost
    ensures Settle(s, now).status != Lost
       <==> IDLE_STUDY_OR_AWAY <= now - s.lastInteractAt < IDLE_LOST
  {
  }

  // ---------- which status a row settles to ----------

  const HOUR: int := 3_600_000_000

  /** Between 18 and 72 hours without interaction. */
  predicate Idling(s: Snapshot, now: int) {
    18 * HOUR <= now - s.lastInteractAt < 72 * HOUR
  }

  /** Less than 18 hours without interaction, and not lost before. */
  predicate Lively(s: Snapshot, now: int) {
    now - s.lastInteractAt < 18 * HOUR && s.status != Lost
  }

  /** The settled row, read off the row and the clock, status by status. */
  predicate SettledAs(s: Snapshot, now: int, settled: Snapshot) {
    var studies := s.studyUntil.Some? && now < s.studyUntil.value;
    var visits := s.awayUntil.Some? && now < s.awayUntil.value;
    && (settled.status == Lost <==> now - s.lastInteractAt >= 72 * HOUR || (s.status == Lost && now - s.lastInteractAt < 18 * HOUR))
    && (settled.status == Away <==> (Idling(s, now) && s.visitOn && !s.hasDueStudyTask) || (Lively(s, now) && !studies && visits))
    && (settled.status == Study <==> (Idling(s, now) && (s.hasDueStudyTask || !s.visitOn)) || (Lively(s, now) && studies))
    && (settled.status == Home <==> Lively(s, now) && !studies && !visits)
    && settled.studyUntil == (if settled.status == Study && studies then s.studyUntil else None)
    && settled.awayUntil == (if settled.status == Away && visits then s.awayUntil else None)
    && (settled.hasBeenLost <==> s.hasBeenLost || settled.status == Lost)
    && (settled.lastInteractAt, settled.visitOn, settled.hasDueStudyTask) == (s.lastInteractAt, s.visitOn, s.hasDueStudyTask)
  }

  lemma SettleDecides(s: Snapshot, now: int)
    ensures SettledAs(s, now, Settle(s, now))
  {
  }

  /**
    After any ordered ticks the row is what its fields before and the last tick say, provided it was
    settleable, as every row is that the system writes. So an idling spirit is never home.
   */
  lemma TicksDecide(s: Snapshot, times: seq<int>)
    requires Settleable(s) && times != [] && Ordered(times)
    ensures SettledAs(s, times[|times| - 1], SettleAll(s, times))
  {
    PathIndependentIff(s);
    SettleDecides(s, times[|times| - 1]);
    hide Settle, Settleable, SettledAs;
  }

  /** Any row whatever, once a tick has found it idling, is away or studying by its flags until it is lost or seen again. */
  lemma IdlingIsNeverHome(s: Snapshot, times: seq<int>)
    requires times != [] && Ordered(times) && forall i | 0 <= i < |times| :: Idling(s, times[i])
    ensures SettleAll(s, times).status == if s.visitOn && !s.hasDueStudyTask then Away else Study
  {
    var first := Settle(s, times[0]);
    SettleDecides(s, times[0]);
    if |times| > 1 {
      assert [times[0]] + times[1..] == times;
      TicksAfterSettleAgree(s, times[0], times[1..]);
      SettleDecides(first, times[|times| - 1]);
    } else {
      assert times[1..] == [];
    }
  }
}
