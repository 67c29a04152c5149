/**
  The messages table. Messages are only ever added; filing a message under a conversation window is the one
  update, and no listing looks at it.
 */
module MessageTable {
  import opened Common
  import opened Keyset

  datatype Role = User | Spirit | System
  datatype Message = Message(spirit: nat, role: Role, createdAt: int, window: Option<nat>)
  type Log = map<nat, Message>

  datatype Posting =
    | Post(id: nat, message: Message)
    | File(spirit: nat, userMessage: nat, spiritMessage: nat, window: nat)

  function After(t: Log, p: Posting): Log {
    match p
    case Post(id, message) => if id in t then t else t[id := message]
    case File(spirit, a, b, window) =>
      map id | id in t :: if t[id].spirit == spirit && (id == a || id == b) then t[id].(window := Some(window)) else t[id]
  }

  function Run(t: Log, postings: seq<Posting>): Log
    decreases |postings|
  {
    if postings == [] then t else Run(After(t, postings[0]), postings[1..])
  }

  predicate Lists(m: Message, spirit: nat, snapshotAt: int) {
    m.spirit == spirit && m.role != System && m.createdAt <= snapshotAt
  }

  function Listable(t: Log, spirit: nat, snapshotAt: int): set<Position> {
    set id | id in t && Lists(t[id], spirit, snapshotAt) :: Position(t[id].createdAt, id)
  }

  class Messages {
    var rows: Log

    constructor ()
      ensures rows == map[]
    {
      rows := map[];
    }

    method ListKeyset(
        spirit: nat, snapshotAt: int, fetchLimit: nat, cursorTime: Option<int>, cursorId: Option<nat>)
      returns (page: seq<Position>)
      ensures var cursor := if cursorTime.Some? && cursorId.Some? then Some(Position(cursorTime.value, cursorId.value)) else None;
        page == Top(Beyond(Listable(rows, spirit, snapshotAt), cursor), fetchLimit)
    {
      var keys := set id | id in rows
        && rows[id].spirit == spirit && rows[id].role != System && rows[id].createdAt <= snapshotAt
        :: Position(rows[id].createdAt, id);
      assert keys == Listable(rows, spirit, snapshotAt);
      if cursorTime.Some? && cursorId.Some? {
        keys := Beyond(keys, Some(Position(cursorTime.value, cursorId.value)));
      } else {
        assert keys == Beyond(keys, None);
      }
      page := Top(keys, fetchLimit);
    }
  }

  lemma {:induction false} RunKeepsListable(t: Log, postings: seq<Posting>, spirit: nat, snapshotAt: int)
    ensures Listable(t, spirit, snapshotAt) <= Listable(Run(t, postings), spirit, snapshotAt)
    decreases |postings|
  {
    if postings != [] {
      var next := After(t, postings[0]);
      assert forall id | id in t :: id in next && next[id].(window := None) == t[id].(window := None);
      forall p | p in Listable(t, spirit, snapshotAt) ensures p in Listable(next, spirit, snapshotAt) {
        assert p.id in next;
      }
      RunKeepsListable(next, postings[1..], spirit, snapshotAt);
    }
  }

  predicate Evolves(tables: seq<Log>, runs: seq<seq<Posting>>) {
    && |tables| == |runs| + 1
    && forall i | 0 <= i < |runs| :: tables[i + 1] == Run(tables[i], runs[i])
  }

  ghost function ListableAt(tables: seq<Log>, spirit: nat, snapshotAt: int): (r: seq<set<Position>>)
    ensures |r| == |tables|
  {
    seq(|tables|, i requires 0 <= i < |tables| => Listable(tables[i], spirit, snapshotAt))
  }

  lemma {:induction false} ListableGrows(tables: seq<Log>, runs: seq<seq<Posting>>, spirit: nat, snapshotAt: int, i: nat)
    requires Evolves(tables, runs) && i < |tables|
    ensures Listable(tables[0], spirit, snapshotAt) <= Listable(tables[i], spirit, snapshotAt)
  {
    if i > 0 {
      ListableGrows(tables, runs, spirit, snapshotAt, i - 1);
      RunKeepsListable(tables[i - 1], runs[i - 1], spirit, snapshotAt);
    }
  }

  predicate Shown(t: Log, spirit: nat, snapshotAt: int, p: Position) {
    p.id in t && t[p.id].spirit == spirit && t[p.id].role != System && t[p.id].createdAt == p.time <= snapshotAt
  }

  /**
    Paging through the history while messages keep arriving loses none of those there at the first page, and
    shows nothing but messages of the spirit, other than the system's, from before the snapshot. They come
    newest first, none twice.
   */
  lemma HistoryIsComplete(tables: seq<Log>, runs: seq<seq<Posting>>, spirit: nat, snapshotAt: int, limit: nat)
    requires limit >= 1 && Evolves(tables, runs)
    requires Finished(ListableAt(tables, spirit, snapshotAt), limit, None)
    ensures var all := Flat(Walk(ListableAt(tables, spirit, snapshotAt), limit, None));
      && (forall i, j | 0 <= i < j < |all| :: all[i].time > all[j].time || (all[i].time == all[j].time && all[i].id > all[j].id))
      && (forall p | Shown(tables[0], spirit, snapshotAt, p) :: p in all)
      && (forall p | p in all :: exists i | 0 <= i < |tables| :: Shown(tables[i], spirit, snapshotAt, p))
  {
    var listable := ListableAt(tables, spirit, snapshotAt);
    WalkDescends(listable, limit, None);
    forall p | p in Listable(tables[0], spirit, snapshotAt) ensures p in Flat(Walk(listable, limit, None)) {
      forall i | 0 <= i < |listable| ensures p in listable[i] {
        ListableGrows(tables, runs, spirit, snapshotAt, i);
      }
      WalkComplete(listable, limit, None, p);
    }
    forall p | p in Flat(Walk(listable, limit, None)) ensures exists i | 0 <= i < |tables| :: Shown(tables[i], spirit, snapshotAt, p) {
      WalkSound(listable, limit, None, p);
      var i :| 0 <= i < |listable| && p in listable[i];
      assert Shown(tables[i], spirit, snapshotAt, p);
    }
    assert forall p | Shown(tables[0], spirit, snapshotAt, p) :: p in Listable(tables[0], spirit, snapshotAt);
  }
}
