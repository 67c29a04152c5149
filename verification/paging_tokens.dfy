/** The memory list as clients see it: opaque tokens in, pages and tokens out. */
module PagingTokens {
  import opened Common
  import opened Bytes
  import opened Keyset
  import opened MemoryTable
  import opened MemoryPaging
  import C = Cursors

  datatype Response = InvalidCursor | Served(items: seq<Position>, next: Option<string>)

  /** What stays the same over the requests of one walk. */
  datatype Setup = Setup(codec: C.Codec, secret: seq<byte>, spirit: nat, kinds: Option<set<MemoryType>>, filterHash: string, limit: nat)

  function At(p: Position, snapshotAt: int, filterHash: string): C.Cursor {
    C.Cursor(C.CURSOR_VERSION, p.time, p.id, snapshotAt, filterHash)
  }

  /** One request: without a token the snapshot is now, with one it and the position come from the token. */
  function Serve(u: Setup, t: Table, now: int, token: Option<string>): Response
    requires u.limit >= 1
  {
    if token.None? then Answer(u, t, now, None)
    else
      var cursor := C.DecodeCursor(u.codec, C.Memories, u.secret, u.filterHash, token.value);
      if cursor.None? then InvalidCursor
      else Answer(u, t, cursor.value.snapshotAt, Some(Position(cursor.value.sortTime, cursor.value.id)))
  }

  function Answer(u: Setup, t: Table, snapshotAt: int, after: Option<Position>): Response
    requires u.limit >= 1
  {
    var page := LoadPage(Listable(t, Query(u.spirit, snapshotAt, u.kinds)), u.limit, after);
    if page.next.None? then Served(page.items, None)
    else Served(page.items, C.EncodeCursor(u.codec, C.Memories, u.secret, At(page.next.value, snapshotAt, u.filterHash)))
  }

  /** A client that sends every token back; tables[i] and nows[i] are what its i-th request meets. */
  function Follow(u: Setup, tables: seq<Table>, nows: seq<int>, token: Option<string>): seq<Response>
    requires u.limit >= 1 && |nows| == |tables|
    decreases |tables|
  {
    if tables == [] then []
    else
      var response := Serve(u, tables[0], nows[0], token);
      [response] + if response.Served? && response.next.Some? then Follow(u, tables[1..], nows[1..], response.next) else []
  }

  predicate Shows(responses: seq<Response>, pages: seq<seq<Position>>) {
    && |responses| == |pages|
    && forall i | 0 <= i < |pages| :: responses[i].Served? && responses[i].items == pages[i]
  }

  /** The position a page hands on is never after the snapshot, so its token always decodes. */
  lemma NextIsBySnapshot(t: Table, q: Query, limit: nat, after: Option<Position>)
    requires limit >= 1
    ensures var page := LoadPage(Listable(t, q), limit, after);
      page.next.Some? ==> page.next.value.time <= q.snapshotAt
  {
    PageExact(Listable(t, q), limit, after);
    var page := LoadPage(Listable(t, q), limit, after);
    if page.next.Some? {
      assert page.next.value in page.items;
    }
  }

  /**
    Following the tokens is following the positions: no token that was handed out is refused, the snapshot of
    the first request is kept throughout, and the pages are those of the walk over it.
   */
  lemma FollowIsWalk(u: Setup, tables: seq<Table>, nows: seq<int>)
    requires u.limit >= 1 && |nows| == |tables| && tables != [] && C.Sound(u.codec)
    ensures Shows(Follow(u, tables, nows, None), Walk(ListableAt(tables, Query(u.spirit, nows[0], u.kinds)), u.limit, None))
  {
    Serves(u, tables, nows, nows[0], None, None);
  }

  /** The token of a request and the position it stands for. */
  ghost predicate StandsFor(u: Setup, token: Option<string>, snapshotAt: int, after: Option<Position>) {
    match token
    case None => after.None?
    case Some(text) =>
      after.Some? && after.value.time <= snapshotAt
      && Some(text) == C.EncodeCursor(u.codec, C.Memories, u.secret, At(after.value, snapshotAt, u.filterHash))
  }

  lemma {:induction false} Serves(u: Setup, tables: seq<Table>, nows: seq<int>, snapshotAt: int, token: Option<string>, after: Option<Position>)
    requires u.limit >= 1 && |nows| == |tables| && C.Sound(u.codec)
    requires StandsFor(u, token, snapshotAt, after) && (token.None? && tables != [] ==> nows[0] == snapshotAt)
    ensures Shows(Follow(u, tables, nows, token), Walk(ListableAt(tables, Query(u.spirit, snapshotAt, u.kinds)), u.limit, after))
    decreases |tables|
  {
    if tables != [] {
      var q := Query(u.spirit, snapshotAt, u.kinds);
      var page := LoadPage(Listable(tables[0], q), u.limit, after);
      var answer := Answer(u, tables[0], snapshotAt, after);
      TokenServed(u, tables[0], nows[0], snapshotAt, token, after);
      NextStandsFor(u, tables[0], snapshotAt, after);
      hide C.Sound, LoadPage, Listable, ListableAt, StandsFor, Answer, Serve, Shows, Walk;
      var pages := if page.next.None? then [] else Walk(ListableAt(tables[1..], q), u.limit, page.next);
      var responses := if answer.next.None? then [] else Follow(u, tables[1..], nows[1..], answer.next);
      WalkListable(tables, q, u.limit, after);
      assert Shows(responses, pages) by {
        if page.next.Some? {
          Serves(u, tables[1..], nows[1..], snapshotAt, answer.next, page.next);
        } else {
          NoneShown();
        }
      }
      ShowsFirst(answer, page.items, responses, pages);
    }
  }

  lemma WalkListable(tables: seq<Table>, q: Query, limit: nat, after: Option<Position>)
    requires limit >= 1 && tables != []
    ensures var page := LoadPage(Listable(tables[0], q), limit, after);
      Walk(ListableAt(tables, q), limit, after)
        == [page.items] + if page.next.None? then [] else Walk(ListableAt(tables[1..], q), limit, page.next)
  {
    assert ListableAt(tables, q)[1..] == ListableAt(tables[1..], q);
  }

  lemma NoneShown()
    ensures Shows([], [])
  {
  }

  lemma ShowsFirst(r: Response, items: seq<Position>, responses: seq<Response>, pages: seq<seq<Position>>)
    requires r.Served? && r.items == items && Shows(responses, pages)
    ensures Shows([r] + responses, [items] + pages)
  {
  }

  /** A token is answered as the position it stands for. */
  lemma TokenServed(u: Setup, t: Table, now: int, snapshotAt: int, token: Option<string>, after: Option<Position>)
    requires u.limit >= 1 && C.Sound(u.codec)
    requires StandsFor(u, token, snapshotAt, after) && (token.None? ==> now == snapshotAt)
    ensures Serve(u, t, now, token) == Answer(u, t, snapshotAt, after)
  {
    if token.Some? {
      C.RoundTripIff(u.codec, C.Memories, u.secret, u.secret, u.filterHash, At(after.value, snapshotAt, u.filterHash));
    }
    hide C.DecodeCursor, C.EncodeCursor, C.Sound, Answer;
  }

  lemma NextStandsFor(u: Setup, t: Table, snapshotAt: int, after: Option<Position>)
    requires u.limit >= 1
    ensures var page := LoadPage(Listable(t, Query(u.spirit, snapshotAt, u.kinds)), u.limit, after);
      var answer := Answer(u, t, snapshotAt, after);
      && answer.Served? && answer.items == page.items
      && (answer.next.None? <==> page.next.None?)
      && StandsFor(u, answer.next, snapshotAt, page.next)
  {
    NextIsBySnapshot(t, Query(u.spirit, snapshotAt, u.kinds), u.limit, after);
    hide LoadPage, Listable;
  }
}
