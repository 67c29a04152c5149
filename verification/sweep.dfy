/** Strings in the order of their code points, and a set of them sorted. */
module Ordering {
  import opened Common

  predicate Less(a: string, b: string) {
    b != [] && (a == [] || a[0] < b[0] || (a[0] == b[0] && Less(a[1..], b[1..])))
  }

  /** Two strings agree up to a place where the first ends or has the smaller character. */
  predicate Differs(a: string, b: string, k: nat) {
    k <= |a| && k < |b| && a[..k] == b[..k] && (k == |a| || a[k] < b[k])
  }

  lemma SameHead(a: string, b: string, k: nat)
    requires 0 < k <= |a| && k <= |b| && a[..k] == b[..k]
    ensures a[0] == b[0]
  {
    assert a[..k][0] == b[..k][0];
  }

  lemma {:induction false} LessIff(a: string, b: string)
    ensures Less(a, b) <==> exists k: nat | k <= |a| :: Differs(a, b, k)
  {
    if a == [] || b == [] || a[0] != b[0] {
      assert Less(a, b) ==> Differs(a, b, 0);
      forall k: nat | k <= |a| && Differs(a, b, k) ensures k == 0 {
        if k > 0 {
          SameHead(a, b, k);
        }
      }
    } else {
      LessIff(a[1..], b[1..]);
      if Less(a, b) {
        var k: nat :| k <= |a[1..]| && Differs(a[1..], b[1..], k);
        assert a[..k + 1] == [a[0]] + a[1..][..k] && b[..k + 1] == [b[0]] + b[1..][..k];
        assert Differs(a, b, k + 1);
      }
      if k: nat :| k <= |a| && Differs(a, b, k) {
        assert k > 0;
        assert a[1..][..k - 1] == a[..k][1..] && b[1..][..k - 1] == b[..k][1..];
        assert Differs(a[1..], b[1..], k - 1);
      }
    }
  }

  lemma {:induction false} LessTotal(a: string, b: string)
    ensures !(Less(a, b) && Less(b, a)) && (Less(a, b) || Less(b, a) <==> a != b)
  {
    if a != [] && b != [] && a[0] == b[0] {
      LessTotal(a[1..], b[1..]);
      assert a == [a[0]] + a[1..] && b == [b[0]] + b[1..];
    }
  }

  lemma {:induction false} LessTransitive(a: string, b: string, c: string)
    requires Less(a, b) && Less(b, c)
    ensures Less(a, c)
  {
    if a != [] && a[0] == b[0] == c[0] {
      LessTransitive(a[1..], b[1..], c[1..]);
    }
  }

  lemma Total()
    ensures forall a, b :: !(Less(a, b) && Less(b, a)) && (Less(a, b) || Less(b, a) <==> a != b)
  {
    forall a, b ensures !(Less(a, b) && Less(b, a)) && (Less(a, b) || Less(b, a) <==> a != b) {
      LessTotal(a, b);
    }
  }

  lemma Transitive()
    ensures forall a, b, c :: Less(a, b) && Less(b, c) ==> Less(a, c)
  {
    forall a, b, c | Less(a, b) && Less(b, c) ensures Less(a, c) {
      LessTransitive(a, b, c);
    }
  }

  lemma {:induction false} LeastExists(s: set<string>)
    requires s != {}
    ensures exists k :: k in s && forall j | j in s && j != k :: Less(k, j)
    decreases |s|
  {
    hide Less;
    Total();
    Transitive();
    var k := Pick(s);
    var rest := s - {k};
    if rest == {} {
      assert s == {k};
    } else {
      LeastExists(rest);
      var m :| m in rest && forall j | j in rest && j != m :: Less(m, j);
      var least := if Less(k, m) then k else m;
      assert least in s && forall j | j in s && j != least :: Less(least, j);
    }
  }

  function Least(s: set<string>): (k: string)
    requires s != {}
    ensures k in s && forall j | j in s && j != k :: Less(k, j)
  {
    LeastExists(s);
    Total();
    var k :| k in s && forall j | j in s && j != k :: Less(k, j);
    k
  }

  function Sorted(s: set<string>): seq<string> {
    if s == {} then [] else var k := Least(s); [k] + Sorted(s - {k})
  }

  predicate Ascending(r: seq<string>) {
    forall i, j | 0 <= i < j < |r| :: Less(r[i], r[j])
  }

  lemma {:induction false} SortedIsAscending(s: set<string>)
    ensures Ascending(Sorted(s)) && |Sorted(s)| == |s| && forall k :: k in Sorted(s) <==> k in s
  {
    hide Less;
    if s != {} {
      SortedIsAscending(s - {Least(s)});
    }
  }
}

/**
  The sweep over an account's stored objects: list a page of keys after the cursor, delete each, go on from
  the last. Keys are "bucket:path".
 */
module SweepRuns {
  import opened Common
  import opened Ordering

  const STORAGE_PAGE: nat := 20

  predicate Past(cursor: Option<string>, k: string) {
    cursor.None? || Less(cursor.value, k)
  }

  function Above(s: set<string>, cursor: Option<string>): set<string> {
    set k | k in s && Past(cursor, k)
  }

  function FirstOf(r: seq<string>, n: nat): seq<string> {
    if |r| <= n then r else r[..n]
  }

  function Keys(r: seq<string>): set<string> {
    set k | k in r
  }

  /** One listing: the first keys after the cursor, in order. */
  function ListPage(s: set<string>, cursor: Option<string>, limit: nat): seq<string> {
    FirstOf(Sorted(Above(s, cursor)), limit)
  }

  lemma PageExact(s: set<string>, cursor: Option<string>, limit: nat)
    requires limit >= 1
    ensures var page, above := ListPage(s, cursor, limit), Above(s, cursor);
      && Ascending(page)
      && |page| == (if |above| < limit then |above| else limit)
      && (page != [] ==> forall k :: k in page <==> k in above && !Less(page[|page| - 1], k))
  {
    var above := Above(s, cursor);
    var all, page := Sorted(above), ListPage(s, cursor, limit);
    SortedIsAscending(above);
    Total();
    hide Less, Sorted, Above;
    assert |page| == if |all| < limit then |all| else limit;
    assert forall i | 0 <= i < |page| :: page[i] == all[i];
    if page != [] {
      var last := page[|page| - 1];
      forall k ensures k in page <==> k in above && !Less(last, k) {
        if k in above {
          var i :| 0 <= i < |all| && all[i] == k;
          assert i >= |page| ==> Less(last, k);
          assert i < |page| ==> page[i] == k && (i == |page| - 1 || Less(k, last));
        } else {
          assert k !in all;
        }
      }
    }
  }

  // ---------- a whole deletion ----------

  /**
    What can happen to the objects of an account being deleted: a page is swept, a page breaks off after some
    of its objects and keeps the old cursor, or another request still stores an object.
   */
  datatype Event = Page | Broken(deleted: nat) | Put(key: string)

  datatype State = State(objects: set<string>, cursor: Option<string>, done: bool)

  function Last(page: seq<string>): string
    requires page != []
  {
    page[|page| - 1]
  }

  function SweepPage(s: State, limit: nat): State {
    var page := ListPage(s.objects, s.cursor, limit);
    if page == [] then s.(done := true)
    else
      var left := s.objects - Keys(page);
      if ListPage(left, Some(Last(page)), 1) == [] then State(left, None, true) else State(left, Some(Last(page)), false)
  }

  function Step(s: State, e: Event, limit: nat): State {
    match e
    case Put(key) => s.(objects := s.objects + {key})
    case Page => if s.done then s else SweepPage(s, limit)
    case Broken(n) => if s.done then s else s.(objects := s.objects - Keys(FirstOf(ListPage(s.objects, s.cursor, limit), n)))
  }

  function Run(s: State, events: seq<Event>, limit: nat): State {
    if events == [] then s else Step(Run(s, events[..|events| - 1], limit), events[|events| - 1], limit)
  }

  function Start(objects: set<string>): State {
    State(objects, None, false)
  }

  /** The sweep will not come by this key any more. */
  predicate Behind(s: State, k: string) {
    s.done || !Past(s.cursor, k)
  }

  /** The objects stored at a key that the sweep had already passed. */
  function LatePuts(objects: set<string>, events: seq<Event>, limit: nat): set<string> {
    if events == [] then {}
    else
      var before, e := events[..|events| - 1], events[|events| - 1];
      LatePuts(objects, before, limit)
      + if e.Put? && Behind(Run(Start(objects), before, limit), e.key) then {e.key} else {}
  }

  ghost predicate Invariant(s: State, late: set<string>) {
    forall k :: k in late <==> k in s.objects && Behind(s, k)
  }

  /**
    At every moment the objects behind the cursor are exactly the late ones; when the sweep is over, exactly
    they are left, whatever was stored or broke off in between.
   */
  lemma {:induction false} OnlyLatePutsAreLeft(objects: set<string>, events: seq<Event>, limit: nat)
    requires limit >= 1
    ensures var s := Run(Start(objects), events, limit);
      && (forall k :: k in LatePuts(objects, events, limit) <==> k in s.objects && Behind(s, k))
      && (s.done ==> s.objects == LatePuts(objects, events, limit))
  {
    if events != [] {
      var before, e := events[..|events| - 1], events[|events| - 1];
      OnlyLatePutsAreLeft(objects, before, limit);
      var s := Run(Start(objects), before, limit);
      var late := LatePuts(objects, before, limit);
      assert Invariant(s, late);
      if e.Page? && !s.done {
        SweepKeeps(s, late, limit);
      } else if e.Broken? && !s.done {
        BreakKeeps(s, late, limit, e.deleted);
      }
      hide Behind, ListPage, SweepPage;
      var t := Step(s, e, limit);
      assert Invariant(t, LatePuts(objects, events, limit)) by {
        hide Past;
        if e.Put? {
          PutKeeps(s, late, e.key);
        }
      }
      if t.done {
        AllBehind(t);
      }
    }
  }

  lemma AllBehind(t: State)
    requires t.done
    ensures forall k :: Behind(t, k)
  {
  }

  lemma PutKeeps(s: State, late: set<string>, key: string)
    requires Invariant(s, late)
    ensures Invariant(s.(objects := s.objects + {key}), late + if Behind(s, key) then {key} else {})
  {
    var t := s.(objects := s.objects + {key});
    assert forall k :: Behind(t, k) <==> Behind(s, k);
    hide Behind;
  }

  lemma SweepKeeps(s: State, late: set<string>, limit: nat)
    requires limit >= 1 && !s.done && Invariant(s, late)
    ensures Invariant(SweepPage(s, limit), late)
  {
    PageExact(s.objects, s.cursor, limit);
    Total();
    Transitive();
    var page := ListPage(s.objects, s.cursor, limit);
    if page != [] {
      var left := s.objects - Keys(page);
      PageExact(left, Some(Last(page)), 1);
      var t := SweepPage(s, limit);
      assert t.done ==> Above(left, Some(Last(page))) == {};
      hide Less, ListPage;
      var last := Last(page);
      assert last in page && Past(s.cursor, last);
      assert forall k | k in s.objects && !Past(s.cursor, k) :: !Past(Some(last), k);
      assert forall k | k in left && !Past(Some(last), k) :: k !in Above(s.objects, s.cursor);
      assert forall k | k in left && Past(Some(last), k) :: k in Above(left, Some(last));
    } else {
      assert Above(s.objects, s.cursor) == {};
      assert forall k | k in s.objects && Past(s.cursor, k) :: k in Above(s.objects, s.cursor);
    }
  }

  lemma BreakKeeps(s: State, late: set<string>, limit: nat, n: nat)
    requires limit >= 1 && !s.done && Invariant(s, late)
    ensures Invariant(s.(objects := s.objects - Keys(FirstOf(ListPage(s.objects, s.cursor, limit), n))), late)
  {
    PageExact(s.objects, s.cursor, limit);
    var page := ListPage(s.objects, s.cursor, limit);
    hide Less, ListPage;
    assert forall k | k in FirstOf(page, n) :: k in page;
  }

  // ---------- an undisturbed deletion ----------

  function Pages(n: nat): seq<Event> {
    seq(n, i => Page)
  }

  lemma PagesStep(s: State, limit: nat, n: nat)
    requires !Run(s, Pages(n), limit).done
    ensures Run(s, Pages(n + 1), limit) == SweepPage(Run(s, Pages(n), limit), limit)
  {
    assert Pages(n + 1)[..n] == Pages(n);
  }

  /** One page takes the next keys, and ends the sweep exactly when no more than a page was left. */
  lemma PageAdvances(s: State, limit: nat)
    requires limit >= 1 && !s.done
    ensures var t, above := SweepPage(s, limit), Above(s.objects, s.cursor);
      && (t.done <==> |above| <= limit)
      && (!t.done ==> |Above(t.objects, t.cursor)| == |above| - limit)
      && t.objects <= s.objects
  {
    PageExact(s.objects, s.cursor, limit);
    var page, above := ListPage(s.objects, s.cursor, limit), Above(s.objects, s.cursor);
    if page == [] {
      assert above == {};
    } else {
      var left, last := s.objects - Keys(page), Last(page);
      BeyondPage(s.objects, s.cursor, limit);
      PageExact(left, Some(last), 1);
      KeysCount(page);
      hide ListPage, Above;
      assert above == Above(left, Some(last)) + Keys(page);
      assert |above| == |Above(left, Some(last))| + |page|;
    }
  }

  lemma BeyondPage(s: set<string>, cursor: Option<string>, limit: nat)
    requires limit >= 1 && ListPage(s, cursor, limit) != []
    ensures var page := ListPage(s, cursor, limit);
      Keys(page) <= Above(s, cursor) && Above(s - Keys(page), Some(Last(page))) == Above(s, cursor) - Keys(page)
  {
    PageExact(s, cursor, limit);
    Transitive();
    var page := ListPage(s, cursor, limit);
    hide Less, ListPage;
    var last := Last(page);
    assert last in page;
    forall k ensures k in Above(s - Keys(page), Some(last)) <==> k in Above(s, cursor) && k !in page {
    }
  }

  lemma {:induction false} KeysCount(r: seq<string>)
    requires Ascending(r)
    ensures |Keys(r)| == |r|
  {
    if r != [] {
      KeysCount(r[1..]);
      assert r == [r[0]] + r[1..];
      assert r[0] !in r[1..] by {
        Total();
        hide Less;
      }
      assert Keys(r) == Keys(r[1..]) + {r[0]};
    }
  }

  /**
    With nothing stored in between, the sweep is over after as many pages as the objects fill, not earlier, and
    leaves none.
   */
  lemma UndisturbedSweep(objects: set<string>, limit: nat, n: nat)
    requires limit >= 1 && n >= 1
    ensures var s := Run(Start(objects), Pages(n), limit);
      && (s.done <==> |objects| <= n * limit)
      && (s.done ==> s.objects == {})
  {
    assert Above(objects, None) == objects;
    AfterPages(objects, limit, n);
    OnlyLatePutsAreLeft(objects, Pages(n), limit);
    NoLatePuts(objects, limit, n);
  }

  lemma {:induction false} AfterPages(objects: set<string>, limit: nat, n: nat)
    requires limit >= 1 && n >= 1
    ensures var s := Run(Start(objects), Pages(n), limit);
      && (s.done <==> |Above(objects, None)| <= n * limit)
      && (!s.done ==> |Above(s.objects, s.cursor)| == |Above(objects, None)| - n * limit)
  {
    var before := Pages(n)[..n - 1];
    assert before == Pages(n - 1);
    assert n * limit == (n - 1) * limit + limit;
    var s := Run(Start(objects), before, limit);
    if n == 1 {
      assert s == Start(objects);
    } else {
      AfterPages(objects, limit, n - 1);
    }
    if !s.done {
      PageAdvances(s, limit);
    }
  }

  lemma {:induction false} NoLatePuts(objects: set<string>, limit: nat, n: nat)
    ensures LatePuts(objects, Pages(n), limit) == {}
  {
    if n > 0 {
      assert Pages(n)[..n - 1] == Pages(n - 1);
      NoLatePuts(objects, limit, n - 1);
    }
  }
}

/** The two object stores, the catalog over them and the page-wise deletion of the account worker. */
module AccountStorage {
  import opened Common
  import opened Bytes
  import opened Ordering
  import opened SweepRuns

  const SIGHT_BUCKET: string := "kelin-sight"
  const TTS_BUCKET: string := "kelin-tts"
  const SIGHT_PATH_PREFIX: string := "sight-temp"
  const TTS_PATH_PREFIX: string := "tts"

  type Objects = map<(string, string), seq<byte>>

  datatype Ref = Ref(bucket: string, path: string)

  function SightPrefix(owner: string): string {
    SIGHT_PATH_PREFIX + "/" + owner + "/"
  }

  function TtsPrefix(owner: string): string {
    TTS_PATH_PREFIX + "/" + owner + "/"
  }

  function KeyOf(bucket: string, path: string): string {
    bucket + ":" + path
  }

  function PathsUnder(objects: Objects, bucket: string, prefix: string): set<string> {
    set k | k in objects && k.0 == bucket && prefix <= k.1 :: k.1
  }

  function KeysUnder(objects: Objects, bucket: string, prefix: string): set<string> {
    set path | path in PathsUnder(objects, bucket, prefix) :: KeyOf(bucket, path)
  }

  /** The keys of the owner's objects in both stores. */
  function Owned(sight: Objects, tts: Objects, owner: string): set<string> {
    KeysUnder(sight, SIGHT_BUCKET, SightPrefix(owner)) + KeysUnder(tts, TTS_BUCKET, TtsPrefix(owner))
  }

  /** Nothing was added or changed, and only objects of this bucket under this prefix are gone. */
  ghost predicate OnlyGoneUnder(before: Objects, after: Objects, bucket: string, prefix: string) {
    && (forall k | k in after :: k in before && after[k] == before[k])
    && (forall k | k in before && !(k.0 == bucket && prefix <= k.1) :: k in after)
  }

  class ObjectStore {
    var objects: Objects

    constructor (objects: Objects)
      ensures this.objects == objects
    {
      this.objects := objects;
    }

    method DeletionListPrefix(bucket: string, prefix: string) returns (paths: seq<string>)
      ensures paths == Sorted(PathsUnder(objects, bucket, prefix))
    {
      paths := Sorted(set k | k in objects && k.0 == bucket && prefix <= k.1 :: k.1);
    }

    method ServiceDelete(bucket: string, path: string) returns (deleted: bool)
      modifies this
      ensures deleted <==> (bucket, path) in old(objects)
      ensures objects == old(objects) - {(bucket, path)}
    {
      deleted := (bucket, path) in objects;
      objects := objects - {(bucket, path)};
    }
  }

  class Catalog {
    const sight: ObjectStore
    const tts: ObjectStore

    constructor (sight: ObjectStore, tts: ObjectStore)
      ensures this.sight == sight && this.tts == tts
    {
      this.sight := sight;
      this.tts := tts;
    }

    method ListOwnerPage(owner: string, after: Option<string>, limit: nat) returns (page: seq<Ref>)
      ensures AreRefs(page, ListPage(Owned(sight.objects, tts.objects, owner), after, limit))
    {
      var sightPaths := sight.DeletionListPrefix(SIGHT_BUCKET, SightPrefix(owner));
      var ttsPaths := tts.DeletionListPrefix(TTS_BUCKET, TtsPrefix(owner));
      SortedIsAscending(PathsUnder(sight.objects, SIGHT_BUCKET, SightPrefix(owner)));
      SortedIsAscending(PathsUnder(tts.objects, TTS_BUCKET, TtsPrefix(owner)));
      var listed := (set path | path in sightPaths :: KeyOf(SIGHT_BUCKET, path))
        + (set path | path in ttsPaths :: KeyOf(TTS_BUCKET, path));
      assert listed == Owned(sight.objects, tts.objects, owner);
      var keys := ListPage(listed, after, limit);
      PageKeys(listed, after, limit);
      page := seq(|keys|, i requires 0 <= i < |keys| => RefOf(keys[i]));
      forall i | 0 <= i < |keys| ensures KeyOf(page[i].bucket, page[i].path) == keys[i] && page[i].bucket in {SIGHT_BUCKET, TTS_BUCKET} {
        assert keys[i] in Owned(sight.objects, tts.objects, owner);
        RefOfOwned(sight.objects, tts.objects, owner, keys[i]);
      }
    }

    /** False for a bucket of another name, where the source raises. */
    method DeleteObject(ref: Ref) returns (known: bool)
      requires sight != tts
      modifies sight, tts
      ensures known <==> ref.bucket == SIGHT_BUCKET || ref.bucket == TTS_BUCKET
      ensures sight.objects == if ref.bucket == SIGHT_BUCKET then old(sight.objects) - {(ref.bucket, ref.path)} else old(sight.objects)
      ensures tts.objects == if ref.bucket == TTS_BUCKET then old(tts.objects) - {(ref.bucket, ref.path)} else old(tts.objects)
    {
      BucketsDiffer();
      known := true;
      if ref.bucket == SIGHT_BUCKET {
        var _ := sight.ServiceDelete(ref.bucket, ref.path);
      } else if ref.bucket == TTS_BUCKET {
        var _ := tts.ServiceDelete(ref.bucket, ref.path);
      } else {
        known := false;
      }
    }
  }

  lemma BucketsDiffer()
    ensures SIGHT_BUCKET != TTS_BUCKET
  {
    assert SIGHT_BUCKET[6] != TTS_BUCKET[6];
  }

  ghost predicate AreRefs(page: seq<Ref>, keys: seq<string>) {
    && |page| == |keys|
    && forall i | 0 <= i < |page| ::
         KeyOf(page[i].bucket, page[i].path) == keys[i] && (page[i].bucket == SIGHT_BUCKET || page[i].bucket == TTS_BUCKET)
  }

  /** Takes a key of one of the two buckets apart. */
  function RefOf(key: string): Ref {
    if KeyOf(SIGHT_BUCKET, "") <= key then Ref(SIGHT_BUCKET, key[|SIGHT_BUCKET| + 1..])
    else if KeyOf(TTS_BUCKET, "") <= key then Ref(TTS_BUCKET, key[|TTS_BUCKET| + 1..])
    else Ref("", key)
  }

  lemma RefOfKey(bucket: string, path: string)
    requires bucket == SIGHT_BUCKET || bucket == TTS_BUCKET
    ensures RefOf(KeyOf(bucket, path)) == Ref(bucket, path)
  {
    var key := KeyOf(bucket, path);
    assert key[|bucket| + 1..] == path;
    assert KeyOf(bucket, "") <= key;
    if bucket == TTS_BUCKET {
      assert key[6] == 't' && KeyOf(SIGHT_BUCKET, "")[6] == 's';
    }
  }

  lemma RefOfOwned(sight: Objects, tts: Objects, owner: string, key: string)
    requires key in Owned(sight, tts, owner)
    ensures var ref := RefOf(key); KeyOf(ref.bucket, ref.path) == key && (ref.bucket == SIGHT_BUCKET || ref.bucket == TTS_BUCKET)
  {
    if key in KeysUnder(sight, SIGHT_BUCKET, SightPrefix(owner)) {
      var path :| path in PathsUnder(sight, SIGHT_BUCKET, SightPrefix(owner)) && KeyOf(SIGHT_BUCKET, path) == key;
      RefOfKey(SIGHT_BUCKET, path);
    } else {
      var path :| path in PathsUnder(tts, TTS_BUCKET, TtsPrefix(owner)) && KeyOf(TTS_BUCKET, path) == key;
      RefOfKey(TTS_BUCKET, path);
    }
  }

  lemma PageKeys(s: set<string>, after: Option<string>, limit: nat)
    ensures forall k | k in ListPage(s, after, limit) :: k in s
  {
    SortedIsAscending(Above(s, after));
    var all := Sorted(Above(s, after));
    assert forall k | k in ListPage(s, after, limit) :: k in all;
  }
}
