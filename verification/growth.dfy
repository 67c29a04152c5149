/**
  Growth events: a delivered fact is stored under its unique key and settles on the spirit once. Each call is
  one transaction that holds the spirit's row; an error rolls it back.
 */
module Growth {
  import opened Common

  const GROWTH_VALUE_MIN: int := 0
  const GROWTH_VALUE_MAX: int := 100

  datatype EventType =
    | ChatCompleted | FeedAccepted | PromiseCompleted | PactAnswered | PactCompleted
    | MemoryAdded | VisitCompleted | ReturnedFromLost | TimePassed

  datatype SourceType = ChatTurn | Feed | MemorySource | PactSource | Visit | Recall | Scheduler

  datatype Field =
    | Hunger | Energy | Mood | Bond
    | Closeness | Curiosity | Sharpness | Nocturnal | Stubborn
    | Foreign(name: string)

  /** Deltas by field. */
  type Payload = map<Field, int>

  datatype Key = Key(source: SourceType, id: nat, event: EventType)
  datatype Event = Event(spirit: nat, payload: Payload, appliedAt: Option<int>)

  datatype Spirit = Spirit(owner: nat, values: map<Field, int>, version: nat, lastInteract: Option<int>)

  datatype State = State(events: map<Key, Event>, spirits: map<nat, Spirit>)

  datatype Delivery = Delivery(
    owner: nat, spirit: nat, event: EventType, id: nat, payload: Payload, now: int, touchInteract: bool)

  datatype Outcome = Rejected | RolledBack | Recorded(applied: bool, spirit: Option<Spirit>)

  function CatalogSource(event: EventType): SourceType {
    match event
    case ChatCompleted => ChatTurn
    case FeedAccepted => Feed
    case PromiseCompleted => Feed
    case PactAnswered => PactSource
    case PactCompleted => PactSource
    case MemoryAdded => MemorySource
    case VisitCompleted => Visit
    case ReturnedFromLost => Recall
    case TimePassed => Scheduler
  }

  function DedupeKey(d: Delivery): Key {
    Key(CatalogSource(d.event), d.id, d.event)
  }

  predicate IsTrait(f: Field) {
    f.Closeness? || f.Curiosity? || f.Sharpness? || f.Nocturnal? || f.Stubborn?
  }

  /** The payload schema: no field of another name, traits move by two at most. */
  predicate Parses(payload: Payload) {
    forall f | f in payload :: !f.Foreign? && (IsTrait(f) ==> -2 <= payload[f] <= 2)
  }

  function Compact(payload: Payload): (r: Payload)
    ensures forall f | f in r :: r[f] != 0
    ensures forall f :: Delta(r, f) == Delta(payload, f)
  {
    map f | f in payload && payload[f] != 0 :: payload[f]
  }

  function Delta(payload: Payload, f: Field): int {
    if f in payload then payload[f] else 0
  }

  function Clamp(current: int, delta: int): (r: int)
    ensures GROWTH_VALUE_MIN <= r <= GROWTH_VALUE_MAX
    ensures GROWTH_VALUE_MIN <= current + delta <= GROWTH_VALUE_MAX ==> r == current + delta
    ensures current + delta > GROWTH_VALUE_MAX ==> r == GROWTH_VALUE_MAX
    ensures current + delta < GROWTH_VALUE_MIN ==> r == GROWTH_VALUE_MIN
  {
    var capped := if current + delta > GROWTH_VALUE_MAX then GROWTH_VALUE_MAX else current + delta;
    if capped < GROWTH_VALUE_MIN then GROWTH_VALUE_MIN else capped
  }

  /** A later moment of interaction replaces an earlier or missing one. */
  function Touched(last: Option<int>, now: int): Option<int> {
    if last.Some? && last.value > now then last else Some(now)
  }

  function Grown(s: Spirit, payload: Payload, now: int, touch: bool): Spirit {
    Spirit(
      s.owner,
      map f | f in s.values :: Clamp(s.values[f], Delta(payload, f)),
      s.version + 1,
      if touch then Touched(s.lastInteract, now) else s.lastInteract)
  }

  predicate HasEffect(d: Delivery) {
    Compact(d.payload) != map[] || d.touchInteract
  }

  /** What a settled delivery does to the spirits, without any event table. */
  function Settle(spirits: map<nat, Spirit>, d: Delivery): map<nat, Spirit> {
    if d.spirit in spirits && HasEffect(d)
    then spirits[d.spirit := Grown(spirits[d.spirit], Compact(d.payload), d.now, d.touchInteract)]
    else spirits
  }

  /** Whether the transaction commits an event: the payload parses, the spirit exists, an update finds its owner. */
  predicate Commits(s: State, d: Delivery) {
    && Parses(d.payload)
    && d.spirit in s.spirits
    && (HasEffect(d) ==> s.spirits[d.spirit].owner == d.owner)
  }

  predicate Settles(s: State, d: Delivery) {
    Commits(s, d) && DedupeKey(d) !in s.events
  }

  function After(s: State, d: Delivery): State {
    if Settles(s, d)
    then State(s.events[DedupeKey(d) := Event(d.spirit, Compact(d.payload), Some(d.now))], Settle(s.spirits, d))
    else s
  }

  /** The two tables and the steps of record_and_apply on them. */
  class Ledger {
    var events: map<Key, Event>
    var spirits: map<nat, Spirit>

    ghost function Value(): State
      reads this
    {
      State(events, spirits)
    }

    constructor (spirits: map<nat, Spirit>)
      ensures Value() == State(map[], spirits)
    {
      this.events := map[];
      this.spirits := spirits;
    }

    /** None when the row's spirit does not exist, which the foreign key refuses. */
    method InsertGrowthEvent(d: Delivery, payload: Payload) returns (inserted: Option<bool>)
      modifies this`events
      ensures inserted == if DedupeKey(d) in old(events) then Some(false) else if d.spirit in spirits then Some(true) else None
      ensures events == if inserted == Some(true) then old(events)[DedupeKey(d) := Event(d.spirit, payload, None)] else old(events)
    {
      var key := DedupeKey(d);
      if key in events {
        return Some(false);
      }
      if d.spirit !in spirits {
        return None;
      }
      events := events[key := Event(d.spirit, payload, None)];
      return Some(true);
    }

    method MarkApplied(key: Key, now: int) returns (marked: bool)
      modifies this`events
      ensures marked <==> key in old(events) && old(events)[key].appliedAt.None?
      ensures events == if marked then old(events)[key := old(events)[key].(appliedAt := Some(now))] else old(events)
    {
      marked := key in events && events[key].appliedAt.None?;
      if marked {
        events := events[key := events[key].(appliedAt := Some(now))];
      }
    }

    /** ok is false where the source raises: an update was due and no row of this owner matched. */
    method ApplyGrowthToSpirit(owner: nat, spirit: nat, payload: Payload, now: int, touch: bool)
      returns (ok: bool, applied: Option<Spirit>)
      modifies this`spirits
      ensures var effect := Compact(payload) != map[] || touch;
        && (ok <==> effect ==> spirit in old(spirits) && old(spirits)[spirit].owner == owner)
        && (applied.Some? <==> ok && effect)
        && (applied.Some? ==> applied == Some(Grown(old(spirits)[spirit], Compact(payload), now, touch)))
        && spirits == if applied.Some? then old(spirits)[spirit := applied.value] else old(spirits)
    {
      var compact := Compact(payload);
      if compact == map[] && !touch {
        return true, None;
      }
      if spirit !in spirits || spirits[spirit].owner != owner {
        return false, None;
      }
      var row := Grown(spirits[spirit], compact, now, touch);
      spirits := spirits[spirit := row];
      return true, Some(row);
    }

    method RecordAndApply(d: Delivery) returns (outcome: Outcome)
      modifies this
      ensures Value() == After(old(Value()), d)
      ensures outcome ==
        if !Parses(d.payload) then Rejected
        else if DedupeKey(d) in old(events) then Recorded(false, None)
        else if !Commits(old(Value()), d) then RolledBack
        else Recorded(true, if HasEffect(d) then Some(spirits[d.spirit]) else None)
    {
      if !Parses(d.payload) {
        return Rejected;
      }
      var compact := Compact(d.payload);
      CompactTwice(d.payload);
      var savedEvents, savedSpirits := events, spirits;
      var inserted := InsertGrowthEvent(d, compact);
      if inserted == None {
        return RolledBack;
      }
      if !inserted.value || events[DedupeKey(d)].appliedAt.Some? {
        return Recorded(false, None);
      }
      var ok, spirit := ApplyGrowthToSpirit(d.owner, d.spirit, compact, d.now, d.touchInteract);
      if !ok {
        events, spirits := savedEvents, savedSpirits;
        return RolledBack;
      }
      var claimed := MarkApplied(DedupeKey(d), d.now);
      if !claimed {
        return Recorded(false, None);
      }
      return Recorded(true, spirit);
    }
  }

  lemma CompactTwice(payload: Payload)
    ensures Compact(Compact(payload)) == Compact(payload)
  {
  }
}

/** Any sequence of deliveries, with whatever is delivered again. */
module GrowthRuns {
  import opened Common
  import opened Growth

  function Run(s: State, ds: seq<Delivery>): State
    decreases |ds|
  {
    if ds == [] then s else Run(After(s, ds[0]), ds[1..])
  }

  /** The deliveries that take effect, in order: each the first of its key to commit. */
  function Settled(s: State, ds: seq<Delivery>): seq<Delivery>
    decreases |ds|
  {
    if ds == [] then []
    else (if Settles(s, ds[0]) then [ds[0]] else []) + Settled(After(s, ds[0]), ds[1..])
  }

  function SettleAll(spirits: map<nat, Spirit>, ds: seq<Delivery>): map<nat, Spirit>
    decreases |ds|
  {
    if ds == [] then spirits else SettleAll(Settle(spirits, ds[0]), ds[1..])
  }

  /** The spirits are what the settled deliveries alone make of them, once each and in that order. */
  lemma {:induction false} SpiritsAreSettled(s: State, ds: seq<Delivery>)
    ensures Run(s, ds).spirits == SettleAll(s.spirits, Settled(s, ds))
    decreases |ds|
  {
    if ds != [] {
      SpiritsAreSettled(After(s, ds[0]), ds[1..]);
      hide Settle, Commits;
      if Settles(s, ds[0]) {
        assert Settled(s, ds)[1..] == Settled(After(s, ds[0]), ds[1..]);
      } else {
        assert Settled(s, ds) == Settled(s, ds[1..]);
      }
    }
  }

  /**
    Exactly once: no two settled deliveries share a key, a key is stored exactly when it was stored before or
    one of them has it, and then with that delivery's payload and time.
   */
  ghost predicate OncePerKey(before: map<Key, Event>, settled: seq<Delivery>, end: map<Key, Event>) {
    && (forall i, j | 0 <= i < j < |settled| :: DedupeKey(settled[i]) != DedupeKey(settled[j]))
    && (forall d | d in settled :: DedupeKey(d) !in before && DedupeKey(d) in end && end[DedupeKey(d)] == Stored(d))
    && (forall key | key in before :: key in end && end[key] == before[key])
    && (forall key | key in end && key !in before :: exists d | d in settled :: DedupeKey(d) == key)
  }

  function Stored(d: Delivery): Event {
    Event(d.spirit, Compact(d.payload), Some(d.now))
  }

  lemma {:induction false} EachKeyOnce(s: State, ds: seq<Delivery>)
    ensures OncePerKey(s.events, Settled(s, ds), Run(s, ds).events)
    decreases |ds|
  {
    if ds != [] {
      var next := After(s, ds[0]);
      EachKeyOnce(next, ds[1..]);
      var later := Settled(next, ds[1..]);
      RunStep(s, ds);
      if Settles(s, ds[0]) {
        hide Settle, Commits, Compact, Run, OncePerKey;
        OnceMore(s.events, ds[0], later, Run(s, ds).events);
        assert Settled(s, ds) == [ds[0]] + later;
      } else {
        hide Run, OncePerKey, Settles;
        assert Settled(s, ds) == later;
      }
    }
  }

  lemma OnceMore(before: map<Key, Event>, d: Delivery, later: seq<Delivery>, end: map<Key, Event>)
    requires DedupeKey(d) !in before
    requires OncePerKey(before[DedupeKey(d) := Stored(d)], later, end)
    ensures OncePerKey(before, [d] + later, end)
  {
    hide DedupeKey, Stored;
    var settled := [d] + later;
    forall i, j | 0 <= i < j < |settled| ensures DedupeKey(settled[i]) != DedupeKey(settled[j]) {
      assert settled[j] == later[j - 1] && settled[j] in later;
      if i > 0 {
        assert settled[i] == later[i - 1];
      }
    }
    forall key | key in end && key !in before ensures exists e | e in settled :: DedupeKey(e) == key {
      if key == DedupeKey(d) {
        assert d in settled;
      } else {
        var e :| e in later && DedupeKey(e) == key;
        assert e in settled;
      }
    }
  }

  lemma {:induction false} RunSplits(s: State, a: seq<Delivery>, b: seq<Delivery>)
    ensures Run(s, a + b) == Run(Run(s, a), b)
    decreases |a|
  {
    if a == [] {
      assert a + b == b;
    } else {
      assert (a + b)[1..] == a[1..] + b;
      RunSplits(After(s, a[0]), a[1..], b);
    }
  }

  /**
    Replay: once a delivery's key is stored, delivering that key again at any later point, with the same or any
    other content, changes neither table then or afterwards.
   */
  lemma ReplayChangesNothing(s: State, before: seq<Delivery>, d: Delivery, between: seq<Delivery>, again: Delivery, rest: seq<Delivery>)
    requires DedupeKey(d) == DedupeKey(again)
    requires DedupeKey(d) in Run(s, before + [d]).events
    ensures Run(s, before + [d] + between + [again] + rest) == Run(s, before + [d] + between + rest)
  {
    var settled := Run(s, before + [d]);
    var there := Run(settled, between);
    EachKeyOnce(settled, between);
    assert After(there, again) == there;
    RunSplits(s, before + [d] + between + [again], rest);
    RunSplits(s, before + [d] + between, rest);
    RunSplits(s, before + [d] + between, [again]);
    RunSplits(s, before + [d], between);
    assert Run(there, [again]) == Run(After(there, again), []);
  }

  predicate InRange(spirits: map<nat, Spirit>) {
    forall id, f | id in spirits && f in spirits[id].values :: GROWTH_VALUE_MIN <= spirits[id].values[f] <= GROWTH_VALUE_MAX
  }

  function EffectsOn(ds: seq<Delivery>, id: nat): nat {
    if ds == [] then 0 else (if ds[0].spirit == id && HasEffect(ds[0]) then 1 else 0) + EffectsOn(ds[1..], id)
  }

  predicate NoEarlier(a: Option<int>, b: Option<int>) {
    a.None? || (b.Some? && a.value <= b.value)
  }

  /** Every value stays in range, the version counts the settled deliveries with an effect, interaction only moves on. */
  lemma {:induction false} SpiritsStaySound(s: State, ds: seq<Delivery>, id: nat)
    requires InRange(s.spirits) && id in s.spirits
    ensures var end := Run(s, ds);
      && InRange(end.spirits)
      && id in end.spirits
      && end.spirits[id].owner == s.spirits[id].owner
      && end.spirits[id].values.Keys == s.spirits[id].values.Keys
      && end.spirits[id].version == s.spirits[id].version + EffectsOn(Settled(s, ds), id)
      && NoEarlier(s.spirits[id].lastInteract, end.spirits[id].lastInteract)
    decreases |ds|
  {
    if ds != [] {
      var next := After(s, ds[0]);
      StepStaysSound(s, ds[0], id);
      SpiritsStaySound(next, ds[1..], id);
      hide Settle, Settles, HasEffect, InRange, After, Run;
      if Settles(s, ds[0]) {
        assert Settled(s, ds)[1..] == Settled(next, ds[1..]);
      } else {
        assert Settled(s, ds) == Settled(next, ds[1..]);
      }
      RunStep(s, ds);
    }
  }

  /** A fact is known by its event and the identifier of its source, and by nothing else. */
  lemma SameFactIff(d: Delivery, e: Delivery)
    ensures DedupeKey(d) == DedupeKey(e) <==> d.event == e.event && d.id == e.id
  {
  }

  lemma CompactIsEmptyIff(payload: Payload)
    ensures Compact(payload) == map[] <==> forall f | f in payload :: payload[f] == 0
  {
    if f :| f in payload && payload[f] != 0 {
      assert f in Compact(payload);
    }
  }

  /**
    A delivery settles if and only if its payload is one that the schema allows, its spirit exists, its owner owns
    the spirit that it would change, and its fact has not settled before.
   */
  lemma SettlesIff(s: State, before: seq<Delivery>, d: Delivery)
    requires s.events == map[]
    ensures var spirits := Run(s, before).spirits;
      Settles(Run(s, before), d) <==>
        && (forall f | f in d.payload :: !f.Foreign? && (IsTrait(f) ==> -2 <= d.payload[f] <= 2))
        && d.spirit in spirits
        && (d.touchInteract || (exists f | f in d.payload :: d.payload[f] != 0) ==> spirits[d.spirit].owner == d.owner)
        && forall e | e in Settled(s, before) :: !(e.event == d.event && e.id == d.id)
  {
    EachKeyOnce(s, before);
    CompactIsEmptyIff(d.payload);
    hide Run, Settled, Compact;
    forall e ensures DedupeKey(e) == DedupeKey(d) <==> e.event == d.event && e.id == d.id {
      SameFactIff(e, d);
    }
    hide DedupeKey, Stored;
  }

  predicate Touches(d: Delivery, id: nat) {
    d.spirit == id && d.touchInteract
  }

  /** The latest of a first moment, if there was one, and the moments of the deliveries that touch the spirit. */
  predicate IsLatest(last: Option<int>, first: Option<int>, settled: seq<Delivery>, id: nat) {
    && (first.Some? ==> last.Some? && first.value <= last.value)
    && (forall i | 0 <= i < |settled| && Touches(settled[i], id) :: last.Some? && settled[i].now <= last.value)
    && (last == first || (last.Some? && exists i | 0 <= i < |settled| :: Touches(settled[i], id) && settled[i].now == last.value))
  }

  /** The moment of interaction is the latest that was there or was settled, in whatever order the deliveries come. */
  lemma {:induction false} LastInteractIsLatest(s: State, ds: seq<Delivery>, id: nat)
    requires id in s.spirits
    ensures id in Run(s, ds).spirits
    ensures IsLatest(Run(s, ds).spirits[id].lastInteract, s.spirits[id].lastInteract, Settled(s, ds), id)
    decreases |ds|
  {
    if ds != [] {
      var next := After(s, ds[0]);
      StepTouches(s, ds[0], id);
      LastInteractIsLatest(next, ds[1..], id);
      RunStep(s, ds);
      hide Settle, Settles, After, Run, IsLatest;
      var later := Settled(next, ds[1..]);
      if Settles(s, ds[0]) {
        assert Settled(s, ds) == [ds[0]] + later;
        OneMoreTouch(Run(s, ds).spirits[id].lastInteract, s.spirits[id].lastInteract, next.spirits[id].lastInteract, ds[0], later, id);
      } else {
        assert Settled(s, ds) == later;
      }
    }
  }

  lemma StepTouches(s: State, d: Delivery, id: nat)
    requires id in s.spirits
    ensures id in After(s, d).spirits
    ensures After(s, d).spirits[id].lastInteract
         == if Settles(s, d) && Touches(d, id) then Touched(s.spirits[id].lastInteract, d.now) else s.spirits[id].lastInteract
  {
    hide Compact, Touched;
  }

  lemma OneMoreTouch(last: Option<int>, first: Option<int>, next: Option<int>, d: Delivery, later: seq<Delivery>, id: nat)
    requires next == if Touches(d, id) then Touched(first, d.now) else first
    requires IsLatest(last, next, later, id)
    ensures IsLatest(last, first, [d] + later, id)
  {
    var settled := [d] + later;
    assert settled[0] == d && forall i | 0 < i < |settled| :: settled[i] == later[i - 1];
    if last.Some? && exists i | 0 <= i < |later| :: Touches(later[i], id) && later[i].now == last.value {
      var i :| 0 <= i < |later| && Touches(later[i], id) && later[i].now == last.value;
      assert settled[i + 1] == later[i];
    }
  }

  lemma RunStep(s: State, ds: seq<Delivery>)
    requires ds != []
    ensures Run(s, ds) == Run(After(s, ds[0]), ds[1..])
  {
  }

  lemma StepStaysSound(s: State, d: Delivery, id: nat)
    requires InRange(s.spirits) && id in s.spirits
    ensures var next := After(s, d);
      && InRange(next.spirits)
      && id in next.spirits
      && next.spirits[id].owner == s.spirits[id].owner
      && next.spirits[id].values.Keys == s.spirits[id].values.Keys
      && next.spirits[id].version == s.spirits[id].version + (if Settles(s, d) && d.spirit == id && HasEffect(d) then 1 else 0)
      && NoEarlier(s.spirits[id].lastInteract, next.spirits[id].lastInteract)
  {
  }

  function DeltaOn(d: Delivery, id: nat, f: Field): int {
    if d.spirit == id then Delta(d.payload, f) else 0
  }

  function SumOn(ds: seq<Delivery>, id: nat, f: Field): int {
    if ds == [] then 0 else DeltaOn(ds[0], id, f) + SumOn(ds[1..], id, f)
  }

  /** No delta takes the value past an end of the range. */
  predicate NeverClamped(value: int, ds: seq<Delivery>, id: nat, f: Field)
    decreases |ds|
  {
    ds != [] ==>
      var next := value + DeltaOn(ds[0], id, f);
      GROWTH_VALUE_MIN <= next <= GROWTH_VALUE_MAX && NeverClamped(next, ds[1..], id, f)
  }

  /** As long as nothing is clamped, a value is what it was plus the sum of the settled deltas of its field. */
  lemma {:induction false} DeltasAddUp(spirits: map<nat, Spirit>, ds: seq<Delivery>, id: nat, f: Field)
    requires id in spirits && f in spirits[id].values && NeverClamped(spirits[id].values[f], ds, id, f)
    ensures var end := SettleAll(spirits, ds);
      id in end && f in end[id].values && end[id].values[f] == spirits[id].values[f] + SumOn(ds, id, f)
    decreases |ds|
  {
    if ds != [] {
      var next := Settle(spirits, ds[0]);
      if ds[0].spirit == id && !HasEffect(ds[0]) {
        assert Delta(Compact(ds[0].payload), f) == 0;
      }
      assert next[id].values[f] == spirits[id].values[f] + DeltaOn(ds[0], id, f);
      DeltasAddUp(next, ds[1..], id, f);
    }
  }

  /** A personality trait moves by two at most with every settled delivery, whatever is delivered. */
  lemma {:induction false} TraitsMoveSlowly(s: State, ds: seq<Delivery>, id: nat, f: Field)
    requires InRange(s.spirits) && id in s.spirits && f in s.spirits[id].values && IsTrait(f)
    ensures var end, most := Run(s, ds).spirits, 2 * EffectsOn(Settled(s, ds), id);
      id in end && f in end[id].values && -most <= end[id].values[f] - s.spirits[id].values[f] <= most
    decreases |ds|
  {
    if ds != [] {
      var next := After(s, ds[0]);
      StepStaysSound(s, ds[0], id);
      StepMovesTrait(s, ds[0], id, f);
      TraitsMoveSlowly(next, ds[1..], id, f);
      hide Settle, Settles, HasEffect, InRange, After, Run;
      if Settles(s, ds[0]) {
        assert Settled(s, ds)[1..] == Settled(next, ds[1..]);
      } else {
        assert Settled(s, ds) == Settled(next, ds[1..]);
      }
      RunStep(s, ds);
    }
  }

  lemma StepMovesTrait(s: State, d: Delivery, id: nat, f: Field)
    requires InRange(s.spirits) && id in s.spirits && f in s.spirits[id].values && IsTrait(f)
    ensures var next := After(s, d).spirits;
      var most := if Settles(s, d) && d.spirit == id && HasEffect(d) then 2 else 0;
      id in next && f in next[id].values && -most <= next[id].values[f] - s.spirits[id].values[f] <= most
  {
    if Settles(s, d) && d.spirit == id && HasEffect(d) {
      assert Delta(Compact(d.payload), f) == Delta(d.payload, f);
      assert -2 <= Delta(d.payload, f) <= 2;
    }
  }

  /**
    Why the order of the settled deliveries matters: two deltas commute on a value exactly when they do not
    pull in opposite directions or neither alone reaches past an end.
   */
  lemma DeltasCommuteIff(value: int, a: int, b: int)
    requires GROWTH_VALUE_MIN <= value <= GROWTH_VALUE_MAX
    ensures Clamp(Clamp(value, a), b) == Clamp(Clamp(value, b), a)
       <==> ((a >= 0 && b >= 0) || (a <= 0 && b <= 0)
             || (GROWTH_VALUE_MIN <= value + a <= GROWTH_VALUE_MAX && GROWTH_VALUE_MIN <= value + b <= GROWTH_VALUE_MAX))
  {
  }

  /**
    The key does not name the spirit: a fact delivered for a second spirit under a stored key is taken for a
    repeat, and that spirit does not grow.
   */
  lemma SameKeyOtherSpirit(s: State, first: Delivery, second: Delivery)
    requires DedupeKey(first) == DedupeKey(second) && first.spirit != second.spirit && Settles(s, first)
    requires second.spirit in s.spirits
    ensures var end := Run(s, [first, second]).spirits;
      second.spirit in end && end[second.spirit] == s.spirits[second.spirit]
  {
    assert [first, second][1..] == [second];
    assert [second][1..] == [];
    var next := After(s, first);
    assert Run(s, [first, second]) == Run(next, [second]);
    assert Run(next, [second]) == Run(After(next, second), []);
  }
}
