/**
  The memories table: its guarded updates, its listings, and what paging through it gives while other
  requests insert, correct, seal, delete and clear between the pages.
 */
module MemoryTable {
  import opened Common
  import opened Keyset

  const TOMBSTONE_FETCH_LIMIT: nat := 100

  datatype Status = Active | Sealed | Deleted
  datatype MemoryType = Preference | Knowledge | Emotion | Relation | Speech | Sight

  datatype Memory = Memory(
    spirit: nat, kind: MemoryType, summary: string, status: Status, version: nat,
    createdAt: int, sealedAt: Option<int>, deletedAt: Option<int>)

  type Table = map<nat, Memory>

  datatype Query = Query(spirit: nat, snapshotAt: int, kinds: Option<set<MemoryType>>)

  /** What other requests do between two pages; now is the time of their transaction. */
  datatype Change =
    | Insert(id: nat, row: Memory)
    | Correct(spirit: nat, id: nat, expectedVersion: nat, summary: string)
    | Seal(spirit: nat, id: nat, expectedVersion: nat, now: int)
    | Delete(spirit: nat, id: nat, expectedVersion: nat, now: int)
    | Clear(spirit: nat, now: int)

  /** The timestamps say what the status says. */
  predicate Coherent(row: Memory) {
    && (row.status == Deleted <==> row.deletedAt.Some?)
    && (row.status == Sealed ==> row.sealedAt.Some?)
    && (row.status == Active ==> row.sealedAt.None?)
  }

  predicate AllCoherent(t: Table) {
    forall id | id in t :: Coherent(t[id])
  }

  predicate Guarded(t: Table, spirit: nat, id: nat, expectedVersion: nat, statuses: set<Status>) {
    id in t && t[id].spirit == spirit && t[id].status in statuses && t[id].version == expectedVersion
  }

  predicate Cleared(row: Memory, spirit: nat) {
    row.spirit == spirit && row.status != Deleted
  }

  /** Whether the guarded statement finds its row (an insert: whether the id is free). */
  predicate Takes(t: Table, c: Change) {
    match c
    case Insert(id, row) => id !in t && Coherent(row)
    case Correct(spirit, id, version, _) => Guarded(t, spirit, id, version, {Active})
    case Seal(spirit, id, version, _) => Guarded(t, spirit, id, version, {Active})
    case Delete(spirit, id, version, _) => Guarded(t, spirit, id, version, {Active, Sealed})
    case Clear(_, _) => true
  }

  function DeletedRow(row: Memory, now: int): Memory {
    row.(status := Deleted, deletedAt := Some(now), version := row.version + 1)
  }

  function After(t: Table, c: Change): Table {
    if !Takes(t, c) then t
    else
      match c
      case Insert(id, row) => t[id := row]
      case Correct(_, id, _, summary) => t[id := t[id].(summary := summary, version := t[id].version + 1)]
      case Seal(_, id, _, now) => t[id := t[id].(status := Sealed, sealedAt := Some(now), version := t[id].version + 1)]
      case Delete(_, id, _, now) => t[id := DeletedRow(t[id], now)]
      case Clear(spirit, now) => map id | id in t :: if Cleared(t[id], spirit) then DeletedRow(t[id], now) else t[id]
  }

  function Run(t: Table, changes: seq<Change>): Table
    decreases |changes|
  {
    if changes == [] then t else Run(After(t, changes[0]), changes[1..])
  }

  // ---------- listings ----------

  predicate Selected(row: Memory, q: Query) {
    row.spirit == q.spirit && (q.kinds.None? || row.kind in q.kinds.value)
  }

  predicate Lists(row: Memory, q: Query) {
    Selected(row, q) && row.status == Active && row.createdAt <= q.snapshotAt
  }

  predicate Buries(row: Memory, q: Query) {
    Selected(row, q) && row.status == Deleted && row.deletedAt.Some? && row.deletedAt.value <= q.snapshotAt
  }

  function Listable(t: Table, q: Query): set<Position> {
    set id | id in t && Lists(t[id], q) :: Position(t[id].createdAt, id)
  }

  function Buried(t: Table, q: Query): set<Position> {
    set id | id in t && Buries(t[id], q) :: Position(t[id].deletedAt.value, id)
  }

  /** The rows of the first positions in order. */
  function Fetched(t: Table, q: Query, keys: set<Position>, n: nat): (page: seq<(nat, Memory)>)
    requires keys <= Listable(t, q)
    ensures seq(|page|, i requires 0 <= i < |page| => Position(page[i].1.createdAt, page[i].0)) == Top(keys, n)
    ensures forall i | 0 <= i < |page| :: page[i].0 in t && page[i].1 == t[page[i].0]
  {
    var chosen := Top(keys, n);
    TopExact(keys, n);
    assert forall i | 0 <= i < |chosen| :: chosen[i] in chosen && chosen[i] in Listable(t, q);
    seq(|chosen|, i requires 0 <= i < |chosen| => (chosen[i].id, t[chosen[i].id]))
  }

  /** The table, changed in place by the guarded statements and read by the two listings. */
  class Memories {
    var rows: Table

    constructor ()
      ensures rows == map[]
    {
      rows := map[];
    }

    method CorrectActive(spirit: nat, id: nat, expectedVersion: nat, summary: string) returns (row: Option<Memory>)
      modifies this
      ensures var c := Correct(spirit, id, expectedVersion, summary);
        rows == After(old(rows), c) && (row.Some? <==> Takes(old(rows), c)) && (row.Some? ==> row == Some(rows[id]))
    {
      row := None;
      if id in rows && rows[id].spirit == spirit && rows[id].status == Active && rows[id].version == expectedVersion {
        rows := rows[id := rows[id].(summary := summary, version := rows[id].version + 1)];
        row := Some(rows[id]);
      }
    }

    method SealActive(spirit: nat, id: nat, expectedVersion: nat, now: int) returns (row: Option<Memory>)
      modifies this
      ensures var c := Seal(spirit, id, expectedVersion, now);
        rows == After(old(rows), c) && (row.Some? <==> Takes(old(rows), c)) && (row.Some? ==> row == Some(rows[id]))
    {
      row := None;
      if id in rows && rows[id].spirit == spirit && rows[id].status == Active && rows[id].version == expectedVersion {
        rows := rows[id := rows[id].(status := Sealed, sealedAt := Some(now), version := rows[id].version + 1)];
        row := Some(rows[id]);
      }
    }

    method DeleteCurrent(spirit: nat, id: nat, expectedVersion: nat, now: int) returns (row: Option<Memory>)
      modifies this
      ensures var c := Delete(spirit, id, expectedVersion, now);
        rows == After(old(rows), c) && (row.Some? <==> Takes(old(rows), c)) && (row.Some? ==> row == Some(rows[id]))
    {
      row := None;
      if id in rows && rows[id].spirit == spirit && rows[id].status != Deleted && rows[id].version == expectedVersion {
        rows := rows[id := rows[id].(status := Deleted, deletedAt := Some(now), version := rows[id].version + 1)];
        row := Some(rows[id]);
      }
    }

    method ClearUndeleted(spirit: nat, now: int) returns (count: nat)
      modifies this
      ensures rows == After(old(rows), Clear(spirit, now))
      ensures count == |set id | id in old(rows) && Cleared(old(rows)[id], spirit)|
    {
      var found := set id | id in rows && rows[id].spirit == spirit && rows[id].status != Deleted;
      count := |found|;
      assert found == set id | id in rows && Cleared(rows[id], spirit);
      rows := map id | id in rows :: if id in found then DeletedRow(rows[id], now) else rows[id];
    }

    method ListActiveKeyset(
        spirit: nat, snapshotAt: int, fetchLimit: nat, kinds: Option<set<MemoryType>>,
        cursorTime: Option<int>, cursorId: Option<nat>)
      returns (page: seq<(nat, Memory)>)
      ensures var keys := seq(|page|, i requires 0 <= i < |page| => Position(page[i].1.createdAt, page[i].0));
        var cursor := if cursorTime.Some? && cursorId.Some? then Some(Position(cursorTime.value, cursorId.value)) else None;
        keys == Top(Beyond(Listable(rows, Query(spirit, snapshotAt, kinds)), cursor), fetchLimit)
      ensures forall i | 0 <= i < |page| :: page[i].0 in rows && page[i].1 == rows[page[i].0]
    {
      var found := set id | id in rows
        && rows[id].spirit == spirit && rows[id].status == Active && rows[id].createdAt <= snapshotAt;
      if kinds.Some? {
        found := set id | id in found && rows[id].kind in kinds.value;
      }
      ghost var q := Query(spirit, snapshotAt, kinds);
      assert found == set id | id in rows && Lists(rows[id], q);
      var keys := set id | id in found :: Position(rows[id].createdAt, id);
      assert keys == Listable(rows, q);
      if cursorTime.Some? && cursorId.Some? {
        keys := Beyond(keys, Some(Position(cursorTime.value, cursorId.value)));
      } else {
        assert keys == Beyond(keys, None);
      }
      assert keys <= Listable(rows, q);
      page := Fetched(rows, Query(spirit, snapshotAt, kinds), keys, fetchLimit);
    }

    method ListDeletedTombstones(spirit: nat, snapshotAt: int, kinds: Option<set<MemoryType>>) returns (page: seq<Position>)
      ensures page == Top(Buried(rows, Query(spirit, snapshotAt, kinds)), TOMBSTONE_FETCH_LIMIT)
    {
      var found := set id | id in rows && rows[id].spirit == spirit && rows[id].status == Deleted
        && rows[id].deletedAt.Some? && rows[id].deletedAt.value <= snapshotAt;
      if kinds.Some? {
        found := set id | id in found && rows[id].kind in kinds.value;
      }
      ghost var q := Query(spirit, snapshotAt, kinds);
      assert found == set id | id in rows && Buries(rows[id], q);
      var keys := set id | id in found :: Position(rows[id].deletedAt.value, id);
      assert keys == Buried(rows, q);
      page := Top(keys, TOMBSTONE_FETCH_LIMIT);
    }
  }
}

/** What any run of changes leaves true, and the pages read while it goes on. */
module MemoryPaging {
  import opened Common
  import opened Keyset
  import opened MemoryTable

  function Rank(s: Status): nat {
    match s case Active => 0 case Sealed => 1 case Deleted => 2
  }

  /** The same memory later: its identity and age stay, its status only moves on, its version counts the changes. */
  predicate Continues(before: Memory, after: Memory) {
    && after.spirit == before.spirit && after.kind == before.kind && after.createdAt == before.createdAt
    && Rank(before.status) <= Rank(after.status)
    && before.version <= after.version
    && (before.version == after.version <==> before == after)
    && (before.deletedAt.Some? && before.status == Deleted ==> after == before)
  }

  predicate TableContinues(before: Table, after: Table) {
    forall id | id in before :: id in after && Continues(before[id], after[id])
  }

  lemma StepContinues(t: Table, c: Change)
    ensures TableContinues(t, After(t, c))
    ensures AllCoherent(t) ==> AllCoherent(After(t, c))
  {
  }

  /** Nothing revives a memory: over any run each row keeps its identity and only moves on. */
  lemma {:induction false} RunContinues(t: Table, changes: seq<Change>)
    ensures TableContinues(t, Run(t, changes))
    ensures AllCoherent(t) ==> AllCoherent(Run(t, changes))
    decreases |changes|
  {
    if changes != [] {
      StepContinues(t, changes[0]);
      RunContinues(After(t, changes[0]), changes[1..]);
    }
  }

  /** The change, when it takes effect, is one of this memory. */
  predicate Hits(t: Table, c: Change, id: nat) {
    match c
    case Insert(_, _) => false
    case Clear(spirit, _) => id in t && Cleared(t[id], spirit)
    case _ => c.id == id
  }

  /** The changes that take effect on a memory, in order. */
  function Effective(t: Table, changes: seq<Change>, id: nat): seq<Change>
    decreases |changes|
  {
    if changes == [] then []
    else (if Takes(t, changes[0]) && Hits(t, changes[0], id) then [changes[0]] else []) + Effective(After(t, changes[0]), changes[1..], id)
  }

  function LastSummary(effective: seq<Change>, summary: string): string {
    if effective == [] then summary
    else
      var last := effective[|effective| - 1];
      if last.Correct? then last.summary else LastSummary(effective[..|effective| - 1], summary)
  }

  predicate Ends(c: Change) {
    c.Delete? || c.Clear?
  }

  predicate StatusTold(before: Memory, after: Memory, effective: seq<Change>) {
    after.status == if exists i | 0 <= i < |effective| :: Ends(effective[i]) then Deleted
                    else if exists i | 0 <= i < |effective| :: effective[i].Seal? then Sealed
                    else before.status
  }

  predicate SealingTold(before: Memory, after: Memory, effective: seq<Change>) {
    && (forall i | 0 <= i < |effective| && effective[i].Seal? :: after.sealedAt == Some(effective[i].now))
    && ((forall i | 0 <= i < |effective| :: !effective[i].Seal?) ==> after.sealedAt == before.sealedAt)
  }

  predicate DeletionTold(before: Memory, after: Memory, effective: seq<Change>) {
    && (forall i | 0 <= i < |effective| && Ends(effective[i]) :: after.deletedAt == Some(effective[i].now))
    && ((forall i | 0 <= i < |effective| :: !Ends(effective[i])) ==> after.deletedAt == before.deletedAt)
  }

  /** The row, read off what it was and the changes that took effect on it. */
  predicate Tells(before: Memory, after: Memory, effective: seq<Change>) {
    && after.spirit == before.spirit && after.kind == before.kind && after.createdAt == before.createdAt
    && after.summary == LastSummary(effective, before.summary)
    && after.version == before.version + |effective|
    && StatusTold(before, after, effective) && SealingTold(before, after, effective) && DeletionTold(before, after, effective)
  }

  /**
    Over any run a memory has the summary of the last correction that took effect, one version for each change
    that did, and the status and times of its sealing and its deletion; what took no effect on it left no trace.
   */
  lemma {:induction false} RunTells(t: Table, changes: seq<Change>, id: nat)
    requires id in t
    ensures id in Run(t, changes) && Tells(t[id], Run(t, changes)[id], Effective(t, changes, id))
    decreases |changes|
  {
    if changes != [] {
      var c, next := changes[0], After(t, changes[0]);
      StepTells(t, c, id);
      RunTells(next, changes[1..], id);
      SealedAndDeleted(next, changes[1..], id);
      var later := Effective(next, changes[1..], id);
      hide After, Effective, Tells, Takes, Hits, Run;
      NextTells(t[id], next[id], Run(next, changes[1..])[id], if Takes(t, c) && Hits(t, c, id) then [c] else [], later);
    }
  }

  lemma StepTells(t: Table, c: Change, id: nat)
    requires id in t
    ensures id in After(t, c) && Tells(t[id], After(t, c)[id], if Takes(t, c) && Hits(t, c, id) then [c] else [])
    ensures Takes(t, c) && Hits(t, c, id) ==> t[id].status != Deleted && (c.Correct? || c.Seal? ==> t[id].status == Active)
  {
    LastOfOne(c, t[id].summary);
    hide LastSummary;
    assert Takes(t, c) && Hits(t, c, id) ==> [c][0] == c;
  }

  lemma LastOfOne(c: Change, summary: string)
    ensures LastSummary([c], summary) == if c.Correct? then c.summary else summary
    ensures LastSummary([], summary) == summary
  {
    assert [c][..0] == [];
  }

  /** A deleted memory is hit no more, and a sealed one is neither corrected nor sealed again. */
  lemma {:induction false} SealedAndDeleted(t: Table, changes: seq<Change>, id: nat)
    requires id in t
    ensures t[id].status == Deleted ==> Effective(t, changes, id) == []
    ensures t[id].status == Sealed ==>
      forall i | 0 <= i < |Effective(t, changes, id)| :: var c := Effective(t, changes, id)[i]; !c.Seal? && !c.Correct?
    decreases |changes|
  {
    if changes != [] {
      StepTells(t, changes[0], id);
      SealedAndDeleted(After(t, changes[0]), changes[1..], id);
      hide LastSummary;
    }
  }

  lemma {:induction false} LastOfMore(c: seq<Change>, later: seq<Change>, summary: string)
    ensures LastSummary(c + later, summary) == LastSummary(later, LastSummary(c, summary))
    decreases |later|
  {
    if later == [] {
      assert c + later == c;
    } else {
      assert (c + later)[..|c + later| - 1] == c + later[..|later| - 1];
      LastOfMore(c, later[..|later| - 1], summary);
    }
  }

  lemma NextTells(before: Memory, between: Memory, after: Memory, first: seq<Change>, later: seq<Change>)
    requires |first| <= 1 && Tells(before, between, first) && Tells(between, after, later)
    requires between.status == Deleted ==> later == []
    requires between.status == Sealed ==> forall i | 0 <= i < |later| :: !later[i].Seal? && !later[i].Correct?
    ensures Tells(before, after, first + later)
  {
    LastOfMore(first, later, before.summary);
    hide LastSummary, StatusTold, SealingTold, DeletionTold;
    if first == [] {
      assert first + later == later;
      NothingTold(before, between);
      SameTold(before, between, after, later);
    } else {
      assert first == [first[0]];
      NextStatus(before, between, after, first[0], later);
      NextSealing(before, between, after, first[0], later);
      NextDeletion(before, between, after, first[0], later);
    }
  }

  lemma NothingTold(before: Memory, after: Memory)
    requires StatusTold(before, after, []) && SealingTold(before, after, []) && DeletionTold(before, after, [])
    ensures after.status == before.status && after.sealedAt == before.sealedAt && after.deletedAt == before.deletedAt
  {
  }

  lemma SameTold(before: Memory, between: Memory, after: Memory, later: seq<Change>)
    requires between.status == before.status && between.sealedAt == before.sealedAt && between.deletedAt == before.deletedAt
    ensures StatusTold(between, after, later) <==> StatusTold(before, after, later)
    ensures SealingTold(between, after, later) <==> SealingTold(before, after, later)
    ensures DeletionTold(between, after, later) <==> DeletionTold(before, after, later)
  {
  }

  lemma Later(c: Change, later: seq<Change>)
    ensures ([c] + later)[0] == c && forall i | 0 <= i < |later| :: ([c] + later)[i + 1] == later[i]
  {
  }

  lemma NextStatus(before: Memory, between: Memory, after: Memory, c: Change, later: seq<Change>)
    requires StatusTold(before, between, [c]) && StatusTold(between, after, later)
    requires between.status == Deleted ==> later == []
    requires between.status == Sealed ==> forall i | 0 <= i < |later| :: !later[i].Seal? && !later[i].Correct?
    ensures StatusTold(before, after, [c] + later)
  {
    var all := [c] + later;
    Later(c, later);
    assert (exists i | 0 <= i < |all| :: Ends(all[i])) <==> Ends(c) || exists i | 0 <= i < |later| :: Ends(later[i]);
    assert (exists i | 0 <= i < |all| :: all[i].Seal?) <==> c.Seal? || exists i | 0 <= i < |later| :: later[i].Seal?;
    assert [c][0] == c;
    hide Ends;
  }

  lemma NextSealing(before: Memory, between: Memory, after: Memory, c: Change, later: seq<Change>)
    requires StatusTold(before, between, [c]) && SealingTold(before, between, [c]) && SealingTold(between, after, later)
    requires between.status == Deleted ==> later == []
    requires between.status == Sealed ==> forall i | 0 <= i < |later| :: !later[i].Seal? && !later[i].Correct?
    ensures SealingTold(before, after, [c] + later)
  {
    Later(c, later);
    assert [c][0] == c;
  }

  lemma NextDeletion(before: Memory, between: Memory, after: Memory, c: Change, later: seq<Change>)
    requires StatusTold(before, between, [c]) && DeletionTold(before, between, [c]) && DeletionTold(between, after, later)
    requires between.status == Deleted ==> later == []
    ensures DeletionTold(before, after, [c] + later)
  {
    Later(c, later);
    assert [c][0] == c;
  }

  /** Of any requests that name the current version of an active memory, exactly the first takes effect on it. */
  lemma ExactlyTheFirst(t: Table, first: Change, others: seq<Change>, id: nat)
    requires id in t && t[id].status == Active && NamesVersion(first, id, t[id].version) && first.spirit == t[id].spirit
    requires forall i | 0 <= i < |others| :: NamesVersion(others[i], id, t[id].version)
    ensures Effective(t, [first] + others, id) == [first]
  {
    var next := After(t, first);
    assert ([first] + others)[1..] == others;
    assert next[id].version == t[id].version + 1;
    NoneForOlder(next, others, id, t[id].version);
  }

  lemma {:induction false} NoneForOlder(t: Table, changes: seq<Change>, id: nat, version: nat)
    requires id in t && t[id].version > version
    requires forall i | 0 <= i < |changes| :: NamesVersion(changes[i], id, version)
    ensures Effective(t, changes, id) == []
    decreases |changes|
  {
    if changes != [] {
      StepContinues(t, changes[0]);
      NoneForOlder(After(t, changes[0]), changes[1..], id, version);
    }
  }

  predicate NamesVersion(c: Change, id: nat, version: nat) {
    (c.Correct? || c.Seal? || c.Delete?) && c.id == id && c.expectedVersion == version
  }

  /** Optimistic locking: of all requests that name the same version of a memory, at most one takes effect. */
  lemma OneChangePerVersion(t: Table, first: Change, between: seq<Change>, second: Change, id: nat, version: nat)
    requires NamesVersion(first, id, version) && NamesVersion(second, id, version)
    requires Takes(t, first)
    ensures !Takes(Run(After(t, first), between), second)
  {
    var taken := After(t, first);
    assert taken[id].version == version + 1;
    RunContinues(taken, between);
  }

  /** The tables at the readings of the pages: each comes from the one before by some run of changes. */
  predicate Evolves(tables: seq<Table>, runs: seq<seq<Change>>) {
    && |tables| == |runs| + 1
    && forall i | 0 <= i < |runs| :: tables[i + 1] == Run(tables[i], runs[i])
  }

  lemma {:induction false} EvolvesContinues(tables: seq<Table>, runs: seq<seq<Change>>, i: nat, j: nat)
    requires Evolves(tables, runs) && i <= j < |tables|
    ensures TableContinues(tables[i], tables[j])
    decreases j - i
  {
    if i < j {
      EvolvesContinues(tables, runs, i, j - 1);
      RunContinues(tables[j - 1], runs[j - 1]);
    }
  }

  ghost function ListableAt(tables: seq<Table>, q: Query): (r: seq<set<Position>>)
    ensures |r| == |tables|
  {
    seq(|tables|, i requires 0 <= i < |tables| => Listable(tables[i], q))
  }

  /** Nothing else is listed: what a page shows was, when it was read, an active memory of that spirit as asked for. */
  lemma ListedWasActive(tables: seq<Table>, q: Query, limit: nat, p: Position) returns (i: nat)
    requires limit >= 1 && p in Flat(Walk(ListableAt(tables, q), limit, None))
    ensures i < |tables| && p.id in tables[i]
    ensures var row := tables[i][p.id];
      && row.createdAt == p.time && row.spirit == q.spirit && row.status == Active && row.createdAt <= q.snapshotAt
      && (q.kinds.Some? ==> row.kind in q.kinds.value)
  {
    i := ListedAt(tables, q, limit, p);
  }

  /**
    Paging through the changing table: a memory that was there at the first page and is still listable at the
    last one is on exactly one of the pages, exactly once; and no memory is listed twice.
   */
  lemma EveryLastingMemoryOnce(tables: seq<Table>, runs: seq<seq<Change>>, q: Query, limit: nat, id: nat)
    requires limit >= 1 && Evolves(tables, runs)
    requires Finished(ListableAt(tables, q), limit, None)
    requires id in tables[0] && id in tables[|tables| - 1]
    requires var row := tables[|tables| - 1][id];
      row.spirit == q.spirit && row.status == Active && row.createdAt <= q.snapshotAt && (q.kinds.Some? ==> row.kind in q.kinds.value)
    ensures var all := Flat(Walk(ListableAt(tables, q), limit, None));
      && Position(tables[0][id].createdAt, id) in all
      && (forall i, j | 0 <= i < j < |all| :: all[i].id != all[j].id)
      && forall i, j | 0 <= i < j < |all| :: all[i].time > all[j].time || (all[i].time == all[j].time && all[i].id > all[j].id)
  {
    var listable := ListableAt(tables, q);
    var p := Position(tables[0][id].createdAt, id);
    forall i | 0 <= i < |listable| ensures p in listable[i] {
      EvolvesContinues(tables, runs, 0, i);
      EvolvesContinues(tables, runs, i, |tables| - 1);
    }
    WalkComplete(listable, limit, None, p);
    WalkDescends(listable, limit, None);
    NoMemoryTwice(tables, runs, q, limit);
  }

  lemma NoMemoryTwice(tables: seq<Table>, runs: seq<seq<Change>>, q: Query, limit: nat)
    requires limit >= 1 && Evolves(tables, runs)
    ensures var all := Flat(Walk(ListableAt(tables, q), limit, None));
      forall i, j | 0 <= i < j < |all| :: all[i].id != all[j].id
  {
    var listable := ListableAt(tables, q);
    var all := Flat(Walk(listable, limit, None));
    WalkDescends(listable, limit, None);
    forall i, j | 0 <= i < j < |all| ensures all[i].id != all[j].id {
      var a := ListedAt(tables, q, limit, all[i]);
      var b := ListedAt(tables, q, limit, all[j]);
      var last := |tables| - 1;
      EvolvesContinues(tables, runs, a, last);
      EvolvesContinues(tables, runs, b, last);
      assert Before(all[i], all[j]);
    }
  }

  lemma ListedAt(tables: seq<Table>, q: Query, limit: nat, p: Position) returns (i: nat)
    requires limit >= 1 && p in Flat(Walk(ListableAt(tables, q), limit, None))
    ensures i < |tables| && p.id in tables[i] && tables[i][p.id].createdAt == p.time && Lists(tables[i][p.id], q)
  {
    WalkSound(ListableAt(tables, q), limit, None, p);
    i :| 0 <= i < |tables| && p in ListableAt(tables, q)[i];
  }

  /**
    The listing and the tombstones never overlap, and a memory that is not sealed and was created by the
    snapshot is in neither of them exactly when it was deleted after the snapshot.
   */
  lemma MissingIff(t: Table, q: Query, id: nat)
    requires AllCoherent(t) && id in t && t[id].spirit == q.spirit && (q.kinds.Some? ==> t[id].kind in q.kinds.value)
    ensures !(Lists(t[id], q) && Buries(t[id], q))
    ensures t[id].status != Sealed && t[id].createdAt <= q.snapshotAt ==>
              (!Lists(t[id], q) && !Buries(t[id], q) <==> t[id].deletedAt.Some? && t[id].deletedAt.value > q.snapshotAt)
  {
    assert Coherent(t[id]);
  }
}
