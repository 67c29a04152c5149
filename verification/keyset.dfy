/**
  Keyset paging, newest first: `ORDER BY created_at DESC, id DESC LIMIT n` below a cursor position, one row
  more than a page holds to learn whether another page follows. The listable rows may be different for
  every page that is read.
 */
module Keyset {
  import opened Common

  datatype Position = Position(time: int, id: nat)

  /** p is listed before q. */
  predicate Before(p: Position, q: Position) {
    p.time > q.time || (p.time == q.time && p.id > q.id)
  }

  predicate Past(cursor: Option<Position>, p: Position) {
    cursor.None? || Before(cursor.value, p)
  }

  function Beyond(s: set<Position>, cursor: Option<Position>): set<Position> {
    set p | p in s && Past(cursor, p)
  }

  ghost predicate IsFirst(p: Position, s: set<Position>) {
    p in s && forall q | q in s && q != p :: Before(p, q)
  }

  lemma {:induction false} FirstExists(s: set<Position>)
    requires s != {}
    ensures exists p :: IsFirst(p, s)
    decreases |s|
  {
    var p := Pick(s);
    if s == {p} {
      assert IsFirst(p, s);
    } else {
      var rest := s - {p};
      assert |rest| < |s|;
      FirstExists(rest);
      var q :| IsFirst(q, rest);
      assert s == rest + {p};
      assert IsFirst(if Before(p, q) then p else q, s);
    }
  }

  function First(s: set<Position>): (p: Position)
    requires s != {}
    ensures IsFirst(p, s)
  {
    FirstExists(s);
    var p :| p in s && forall q | q in s && q != p :: Before(p, q);
    p
  }

  /** The rows that the ordered and limited SELECT returns. */
  function Top(s: set<Position>, n: nat): seq<Position> {
    if n == 0 || s == {} then [] else [First(s)] + Top(s - {First(s)}, n - 1)
  }

  function Sorted(s: set<Position>): seq<Position> {
    Top(s, |s|)
  }

  predicate Descending(r: seq<Position>) {
    forall i, j | 0 <= i < j < |r| :: Before(r[i], r[j])
  }

  lemma {:induction false} TopExact(s: set<Position>, n: nat)
    ensures |Top(s, n)| == if n < |s| then n else |s|
    ensures Descending(Top(s, n))
    ensures forall p | p in Top(s, n) :: p in s
    ensures forall p, q | p in Top(s, n) && q in s && q !in Top(s, n) :: Before(p, q)
  {
    if n > 0 && s != {} {
      TopExact(s - {First(s)}, n - 1);
    }
  }

  /** Sorted holds every row of the set, and is the only descending list that does. */
  lemma {:induction false} SortedIsUnique(s: set<Position>, r: seq<Position>)
    requires Descending(r) && forall p :: p in r <==> p in s
    ensures r == Sorted(s)
    decreases |r|
  {
    if r == [] {
      assert s == {};
    } else {
      assert r[0] in s;
      assert First(s) == r[0];
      var rest := s - {r[0]};
      assert forall p | p in r[1..] :: p != r[0] by {
        assert !Before(r[0], r[0]);
      }
      assert r == [r[0]] + r[1..];
      assert r[0] !in r[1..];
      SortedIsUnique(rest, r[1..]);
      SortedHead(s);
    }
  }

  lemma SortedHead(s: set<Position>)
    requires s != {}
    ensures Sorted(s) == [First(s)] + Sorted(s - {First(s)})
  {
    assert |s - {First(s)}| == |s| - 1;
  }

  lemma SortedHoldsAll(s: set<Position>)
    ensures forall p :: p in Sorted(s) <==> p in s
    ensures Descending(Sorted(s)) && |Sorted(s)| == |s|
  {
    TopExact(s, |s|);
    var r := Sorted(s);
    var listed := set p | p in r;
    DescendingCounts(r);
    assert listed <= s;
    if q :| q in s && q !in listed {
      assert listed < s;
      SubsetSmaller(listed, s);
    }
  }

  lemma SubsetSmaller(a: set<Position>, b: set<Position>)
    requires a < b
    ensures |a| < |b|
  {
    assert b == a + (b - a);
    assert |b| == |a| + |b - a|;
    assert b - a != {};
  }

  lemma {:induction false} DescendingCounts(r: seq<Position>)
    requires Descending(r)
    ensures |set p | p in r| == |r|
  {
    if r != [] {
      DescendingCounts(r[1..]);
      assert r == [r[0]] + r[1..];
      assert r[0] !in r[1..] by {
        assert !Before(r[0], r[0]);
      }
      assert (set p | p in r) == (set p | p in r[1..]) + {r[0]};
    }
  }

  // ---------- one page ----------

  datatype Page = Page(items: seq<Position>, next: Option<Position>)

  /** One request: the page, and the position its cursor carries when there is more. */
  function LoadPage(s: set<Position>, limit: nat, after: Option<Position>): Page
    requires limit >= 1
  {
    var rows := Top(Beyond(s, after), limit + 1);
    if |rows| > limit then Page(rows[..limit], Some(rows[..limit][limit - 1])) else Page(rows, None)
  }

  /** A page is exactly the listable rows between its cursor and the next one. */
  lemma PageExact(s: set<Position>, limit: nat, after: Option<Position>)
    requires limit >= 1
    ensures var page := LoadPage(s, limit, after);
      && Descending(page.items)
      && (page.next.Some? ==> |page.items| == limit && page.next.value == page.items[limit - 1])
      && forall p :: p in page.items <==> p in s && Past(after, p) && (page.next.None? || !Before(page.next.value, p))
  {
    var below := Beyond(s, after);
    var rows := Top(below, limit + 1);
    TopExact(below, limit + 1);
    var page := LoadPage(s, limit, after);
    if page.next.None? {
      SortedHoldsAll(below);
      TopAll(below, limit + 1);
    } else {
      CutExact(below, rows, limit);
    }
  }

  lemma CutExact(below: set<Position>, rows: seq<Position>, limit: nat)
    requires 1 <= limit < |rows| && Descending(rows)
    requires forall p | p in rows :: p in below
    requires forall p, q | p in rows && q in below && q !in rows :: Before(p, q)
    ensures forall p :: p in rows[..limit] <==> p in below && !Before(rows[limit - 1], p)
  {
    var last := rows[limit - 1];
    assert forall k | 0 <= k < |rows| :: Before(last, rows[k]) <==> k >= limit;
    forall p | p in below && !Before(last, p) ensures p in rows[..limit] {
      assert last in rows && p in rows;
      var i :| 0 <= i < |rows| && rows[i] == p;
      assert rows[..limit][i] == p;
    }
    forall p | p in rows[..limit] ensures p in below && !Before(last, p) {
      var i :| 0 <= i < limit && rows[i] == p;
    }
  }

  lemma {:induction false} TopAll(s: set<Position>, n: nat)
    requires |s| <= n
    ensures Top(s, n) == Sorted(s)
    decreases n
  {
    if s != {} {
      TopAll(s - {First(s)}, n - 1);
      TopAll(s - {First(s)}, |s| - 1);
    }
  }

  // ---------- following the cursors ----------

  /** The pages of a client that follows next_cursor; listable[i] are the rows listable when page i is read. */
  ghost function Walk(listable: seq<set<Position>>, limit: nat, after: Option<Position>): seq<seq<Position>>
    requires limit >= 1
  {
    if listable == [] then []
    else
      var page := LoadPage(listable[0], limit, after);
      [page.items] + if page.next.None? then [] else Walk(listable[1..], limit, page.next)
  }

  /** The walk reached a page without a next cursor. */
  ghost predicate Finished(listable: seq<set<Position>>, limit: nat, after: Option<Position>)
    requires limit >= 1
  {
    listable != []
    && var page := LoadPage(listable[0], limit, after);
       page.next.None? || Finished(listable[1..], limit, page.next)
  }

  function Flat(pages: seq<seq<Position>>): seq<Position> {
    if pages == [] then [] else pages[0] + Flat(pages[1..])
  }

  /** The cursor that page i was read with: the last row of the page before it. */
  function CursorAt(pages: seq<seq<Position>>, after: Option<Position>, i: nat): Option<Position>
    requires i < |pages|
  {
    if i == 0 then after
    else if pages[i - 1] == [] then None
    else Some(pages[i - 1][|pages[i - 1]| - 1])
  }

  /**
    What each page holds, whatever happens to the table in between: page i is every row listable at its
    reading that lies past its cursor and, unless the walk ended there, not past its own last row.
   */
  lemma {:induction false} PagesExact(listable: seq<set<Position>>, limit: nat, after: Option<Position>, i: nat, p: Position)
    requires limit >= 1 && i < |Walk(listable, limit, after)|
    ensures |Walk(listable, limit, after)| <= |listable|
    ensures var pages := Walk(listable, limit, after);
      var ended := Finished(listable, limit, after) && i == |pages| - 1;
      && (!ended ==> |pages[i]| == limit)
      && (p in pages[i] <==>
           p in listable[i] && Past(CursorAt(pages, after, i), p) && (ended || !Before(pages[i][limit - 1], p)))
    decreases i
  {
    var page := LoadPage(listable[0], limit, after);
    var pages := Walk(listable, limit, after);
    PageExact(listable[0], limit, after);
    WalkLength(listable, limit, after);
    if i == 0 {
      if page.next.Some? && |pages| == 1 {
        assert listable[1..] == [];
      } else if page.next.Some? {
        assert pages[1..] == Walk(listable[1..], limit, page.next);
      }
    } else {
      var rest := pages[1..];
      assert rest == Walk(listable[1..], limit, page.next);
      PagesExact(listable[1..], limit, page.next, i - 1, p);
      assert CursorAt(rest, page.next, i - 1) == CursorAt(pages, after, i);
    }
  }

  lemma {:induction false} WalkLength(listable: seq<set<Position>>, limit: nat, after: Option<Position>)
    requires limit >= 1
    ensures |Walk(listable, limit, after)| <= |listable|
    ensures listable != [] ==> Walk(listable, limit, after) != []
  {
    if listable != [] {
      WalkLength(listable[1..], limit, LoadPage(listable[0], limit, after).next);
    }
  }

  /** No page ever steps back or repeats: the keys over all pages strictly descend, for any changes in between. */
  lemma {:induction false} WalkDescends(listable: seq<set<Position>>, limit: nat, after: Option<Position>)
    requires limit >= 1
    ensures var all := Flat(Walk(listable, limit, after));
      Descending(all) && forall p | p in all :: Past(after, p)
    decreases |listable|
  {
    if listable != [] {
      var page := LoadPage(listable[0], limit, after);
      PageExact(listable[0], limit, after);
      if page.next.Some? {
        var later := Walk(listable[1..], limit, page.next);
        WalkDescends(listable[1..], limit, page.next);
        hide LoadPage, Top, Walk;
        Splice(page.items, Flat(later), after);
        assert ([page.items] + later)[1..] == later;
      } else {
        hide LoadPage, Top;
        assert Flat([page.items]) == page.items;
      }
    }
  }

  lemma Splice(items: seq<Position>, later: seq<Position>, after: Option<Position>)
    requires Descending(items) && items != [] && Descending(later)
    requires forall p | p in items :: Past(after, p)
    requires forall p | p in later :: Before(items[|items| - 1], p)
    ensures Descending(items + later) && forall p | p in items + later :: Past(after, p)
  {
    var all := items + later;
    forall i, j | 0 <= i < j < |all| ensures Before(all[i], all[j]) {
      var last := items[|items| - 1];
      if i < |items| <= j {
        assert i < |items| - 1 ==> Before(items[i], last);
        assert later[j - |items|] in later;
      }
    }
    forall p | p in later ensures Past(after, p) {
      assert items[|items| - 1] in items;
    }
  }

  /**
    A finished walk contains every row that was listable at each of its pages, and every row it contains was
    listable when its page was read.
   */
  lemma {:induction false} WalkComplete(listable: seq<set<Position>>, limit: nat, after: Option<Position>, p: Position)
    requires limit >= 1 && Finished(listable, limit, after)
    requires Past(after, p)
    requires forall i | 0 <= i < |listable| :: p in listable[i]
    ensures p in Flat(Walk(listable, limit, after))
    decreases |listable|
  {
    var page := LoadPage(listable[0], limit, after);
    PageExact(listable[0], limit, after);
    if page.next.Some? {
      var later := Walk(listable[1..], limit, page.next);
      assert ([page.items] + later)[1..] == later;
      if Before(page.next.value, p) {
        WalkComplete(listable[1..], limit, page.next, p);
      }
    }
  }

  lemma {:induction false} WalkSound(listable: seq<set<Position>>, limit: nat, after: Option<Position>, p: Position)
    requires limit >= 1 && p in Flat(Walk(listable, limit, after))
    ensures exists i :: 0 <= i < |listable| && p in listable[i]
    decreases |listable|
  {
    var page := LoadPage(listable[0], limit, after);
    PageExact(listable[0], limit, after);
    if p !in page.items {
      var later := Walk(listable[1..], limit, page.next);
      assert page.next.Some?;
      assert ([page.items] + later)[1..] == later;
      WalkSound(listable[1..], limit, page.next, p);
      var i :| 0 <= i < |listable[1..]| && p in listable[1..][i];
      assert p in listable[i + 1];
    }
  }

  // ---------- a table that does not change ----------

  ghost function Repeat(s: set<Position>, pages: nat): seq<set<Position>> {
    if pages == 0 then [] else [s] + Repeat(s, pages - 1)
  }

  /**
    On a table that stays as it is, the walk is over as soon as the pages have room for every row, and not
    earlier; its pages put together are the sorted list.
   */
  lemma FixedTable(s: set<Position>, limit: nat, pages: nat)
    requires limit >= 1 && pages >= 1
    ensures Finished(Repeat(s, pages), limit, None) <==> |s| <= pages * limit
    ensures |s| <= pages * limit ==> Flat(Walk(Repeat(s, pages), limit, None)) == Sorted(s)
  {
    assert Beyond(s, None) == s;
    FixedFrom(s, limit, pages, None);
  }

  lemma {:induction false} FixedFrom(s: set<Position>, limit: nat, pages: nat, after: Option<Position>)
    requires limit >= 1 && pages >= 1
    ensures Finished(Repeat(s, pages), limit, after) <==> |Beyond(s, after)| <= pages * limit
    ensures |Beyond(s, after)| <= pages * limit ==> Flat(Walk(Repeat(s, pages), limit, after)) == Sorted(Beyond(s, after))
    decreases pages
  {
    var listable := Repeat(s, pages);
    var page := LoadPage(s, limit, after);
    assert listable != [] && listable[0] == s && listable[1..] == Repeat(s, pages - 1);
    LimitDistributes(limit, pages);
    if page.next.None? {
      LastPage(s, limit, after);
      hide LoadPage, Beyond, Sorted, Repeat;
      assert Flat([page.items]) == page.items;
    } else {
      PageLeaves(s, limit, after);
      MoreThanLimit(s, limit, after);
      if pages == 1 {
        assert listable[1..] == [];
      } else {
        FixedFrom(s, limit, pages - 1, page.next);
        JoinSorted(s, limit, after);
        var later := Walk(listable[1..], limit, page.next);
        assert Walk(listable, limit, after) == [page.items] + later;
        hide LoadPage, Beyond, Sorted, Repeat, Walk;
        assert ([page.items] + later)[1..] == later;
      }
    }
  }

  lemma LastPage(s: set<Position>, limit: nat, after: Option<Position>)
    requires limit >= 1 && LoadPage(s, limit, after).next.None?
    ensures |Beyond(s, after)| <= limit && LoadPage(s, limit, after).items == Sorted(Beyond(s, after))
  {
    TopExact(Beyond(s, after), limit + 1);
    TopAll(Beyond(s, after), limit + 1);
  }

  lemma MoreThanLimit(s: set<Position>, limit: nat, after: Option<Position>)
    requires limit >= 1 && LoadPage(s, limit, after).next.Some?
    ensures |Beyond(s, after)| > limit
  {
    TopExact(Beyond(s, after), limit + 1);
  }

  lemma LimitDistributes(limit: nat, pages: nat)
    requires pages >= 1
    ensures pages * limit == (pages - 1) * limit + limit >= limit
  {
  }

  lemma JoinSorted(s: set<Position>, limit: nat, after: Option<Position>)
    requires limit >= 1 && LoadPage(s, limit, after).next.Some?
    ensures var page := LoadPage(s, limit, after);
      page.items + Sorted(Beyond(s, page.next)) == Sorted(Beyond(s, after))
  {
    var page := LoadPage(s, limit, after);
    var below, rest := Beyond(s, after), Beyond(s, page.next);
    PageExact(s, limit, after);
    PageLeaves(s, limit, after);
    SortedHoldsAll(rest);
    hide LoadPage, Sorted, Top;
    Splice(page.items, Sorted(rest), after);
    SortedIsUnique(below, page.items + Sorted(rest));
  }

  lemma PageLeaves(s: set<Position>, limit: nat, after: Option<Position>)
    requires limit >= 1 && LoadPage(s, limit, after).next.Some?
    ensures var page := LoadPage(s, limit, after);
      && |Beyond(s, page.next)| == |Beyond(s, after)| - limit
      && Beyond(s, page.next) == Beyond(s, after) - set p | p in page.items
  {
    var page := LoadPage(s, limit, after);
    var below, rest, listed := Beyond(s, after), Beyond(s, page.next), set p | p in page.items;
    PageExact(s, limit, after);
    DescendingCounts(page.items);
    hide LoadPage, Top;
    assert page.next.value in page.items;
    forall p | p in rest ensures p in below && p !in listed {
    }
    assert rest == below - listed;
    assert below == rest + listed;
    assert |below| == |rest| + |listed|;
  }
}
