/** The account worker: one page per tick, its cursor kept between ticks, until no object of the owner is left. */
module AccountDelete {
  import opened Common
  import opened Ordering
  import opened SweepRuns
  import opened AccountStorage
  import opened AccountOwners

  /** Only objects under the owner's prefix are gone from each store, everything else is as it was. */
  ghost predicate OnlyOwnersGone(sight: Objects, tts: Objects, sightNow: Objects, ttsNow: Objects, owner: string) {
    && OnlyGoneUnder(sight, sightNow, SIGHT_BUCKET, SightPrefix(owner))
    && OnlyGoneUnder(tts, ttsNow, TTS_BUCKET, TtsPrefix(owner))
  }

  /** Every other account has the keys that it had. */
  ghost predicate OthersKeepTheirs(sight: Objects, tts: Objects, sightNow: Objects, ttsNow: Objects, owner: string) {
    Slashless(owner) ==> forall other: string | Slashless(other) && other != owner :: Owned(sightNow, ttsNow, other) == Owned(sight, tts, other)
  }

  lemma OwnersGoneKeepsOthers(sight: Objects, tts: Objects, sightNow: Objects, ttsNow: Objects, owner: string)
    requires OnlyOwnersGone(sight, tts, sightNow, ttsNow, owner)
    ensures OthersKeepTheirs(sight, tts, sightNow, ttsNow, owner)
  {
    hide Owned, Slashless;
    forall other: string | Slashless(owner) && Slashless(other) && other != owner ensures Owned(sightNow, ttsNow, other) == Owned(sight, tts, other) {
      OthersStay(sight, tts, sightNow, ttsNow, owner, other);
    }
  }

  /** Deleting the object of an owned key takes that key out of the owner's set and touches nothing else. */
  lemma DeletingOne(sight: Objects, tts: Objects, owner: string, ref: Ref)
    requires KeyOf(ref.bucket, ref.path) in Owned(sight, tts, owner)
    requires ref.bucket == SIGHT_BUCKET || ref.bucket == TTS_BUCKET
    ensures var sightNow := if ref.bucket == SIGHT_BUCKET then sight - {(ref.bucket, ref.path)} else sight;
      var ttsNow := if ref.bucket == TTS_BUCKET then tts - {(ref.bucket, ref.path)} else tts;
      && Owned(sightNow, ttsNow, owner) == Owned(sight, tts, owner) - {KeyOf(ref.bucket, ref.path)}
      && OnlyOwnersGone(sight, tts, sightNow, ttsNow, owner)
  {
    BucketsDiffer();
    OwnedPath(sight, tts, owner, ref);
    if ref.bucket == SIGHT_BUCKET {
      DeletingUnder(sight, SIGHT_BUCKET, SightPrefix(owner), ref.path);
      OtherBucket(tts, TTS_BUCKET, TtsPrefix(owner), ref);
    } else {
      DeletingUnder(tts, TTS_BUCKET, TtsPrefix(owner), ref.path);
      OtherBucket(sight, SIGHT_BUCKET, SightPrefix(owner), ref);
    }
  }

  lemma OwnedPath(sight: Objects, tts: Objects, owner: string, ref: Ref)
    requires KeyOf(ref.bucket, ref.path) in Owned(sight, tts, owner)
    requires ref.bucket == SIGHT_BUCKET || ref.bucket == TTS_BUCKET
    ensures if ref.bucket == SIGHT_BUCKET then ref.path in PathsUnder(sight, SIGHT_BUCKET, SightPrefix(owner))
            else ref.path in PathsUnder(tts, TTS_BUCKET, TtsPrefix(owner))
  {
    BucketsDiffer();
    RefOfKey(ref.bucket, ref.path);
    var key := KeyOf(ref.bucket, ref.path);
    hide KeyOf, RefOf;
    if key in KeysUnder(sight, SIGHT_BUCKET, SightPrefix(owner)) {
      var path :| path in PathsUnder(sight, SIGHT_BUCKET, SightPrefix(owner)) && KeyOf(SIGHT_BUCKET, path) == key;
      RefOfKey(SIGHT_BUCKET, path);
    } else {
      var path :| path in PathsUnder(tts, TTS_BUCKET, TtsPrefix(owner)) && KeyOf(TTS_BUCKET, path) == key;
      RefOfKey(TTS_BUCKET, path);
    }
  }

  lemma DeletingUnder(objects: Objects, bucket: string, prefix: string, path: string)
    requires bucket == SIGHT_BUCKET || bucket == TTS_BUCKET
    requires path in PathsUnder(objects, bucket, prefix)
    ensures var now := objects - {(bucket, path)};
      KeysUnder(now, bucket, prefix) == KeysUnder(objects, bucket, prefix) - {KeyOf(bucket, path)}
      && OnlyGoneUnder(objects, now, bucket, prefix)
  {
    var now := objects - {(bucket, path)};
    assert PathsUnder(now, bucket, prefix) == PathsUnder(objects, bucket, prefix) - {path} by {
      forall p | p in PathsUnder(objects, bucket, prefix) && p != path ensures p in PathsUnder(now, bucket, prefix) {
        assert (bucket, p) in now;
      }
    }
    forall p | p in PathsUnder(objects, bucket, prefix) && p != path ensures KeyOf(bucket, p) != KeyOf(bucket, path) {
      RefOfKey(bucket, p);
      RefOfKey(bucket, path);
    }
    hide KeyOf;
  }

  /** A key of the one bucket is no key of the other. */
  lemma OtherBucket(objects: Objects, bucket: string, prefix: string, ref: Ref)
    requires ref.bucket != bucket
    requires ref.bucket == SIGHT_BUCKET || ref.bucket == TTS_BUCKET
    requires bucket == SIGHT_BUCKET || bucket == TTS_BUCKET
    ensures KeyOf(ref.bucket, ref.path) !in KeysUnder(objects, bucket, prefix)
    ensures OnlyGoneUnder(objects, objects, bucket, prefix)
  {
    RefOfKey(ref.bucket, ref.path);
    forall path | path in PathsUnder(objects, bucket, prefix) ensures KeyOf(bucket, path) != KeyOf(ref.bucket, ref.path) {
      RefOfKey(bucket, path);
    }
    hide KeyOf, RefOf;
  }

  lemma GoneTransitive(a: Objects, b: Objects, c: Objects, bucket: string, prefix: string)
    requires OnlyGoneUnder(a, b, bucket, prefix) && OnlyGoneUnder(b, c, bucket, prefix)
    ensures OnlyGoneUnder(a, c, bucket, prefix)
  {
  }

  /** One tick: the owner's objects and the new cursor are those of one sweep step; nothing else changes. */
  method DeleteStoragePage(catalog: Catalog, owner: string, after: Option<string>) returns (next: Option<string>)
    requires catalog.sight != catalog.tts
    modifies catalog.sight, catalog.tts
    ensures var s := State(Owned(old(catalog.sight.objects), old(catalog.tts.objects), owner), after, false);
      var t := SweepPage(s, STORAGE_PAGE);
      && Owned(catalog.sight.objects, catalog.tts.objects, owner) == t.objects
      && (next.None? <==> t.done)
      && (next.Some? ==> next == t.cursor)
    ensures OnlyOwnersGone(old(catalog.sight.objects), old(catalog.tts.objects), catalog.sight.objects, catalog.tts.objects, owner)
    ensures OthersKeepTheirs(old(catalog.sight.objects), old(catalog.tts.objects), catalog.sight.objects, catalog.tts.objects, owner)
  {
    var page := catalog.ListOwnerPage(owner, after, STORAGE_PAGE);
    ghost var owned := Owned(catalog.sight.objects, catalog.tts.objects, owner);
    ghost var keys := ListPage(owned, after, STORAGE_PAGE);
    ghost var sight0, tts0 := catalog.sight.objects, catalog.tts.objects;
    if |page| == 0 {
      OwnersGoneKeepsOthers(sight0, tts0, sight0, tts0, owner);
      return None;
    }
    PageKeys(owned, after, STORAGE_PAGE);
    PageExact(owned, after, STORAGE_PAGE);
    hide KeyOf, ListPage, Owned, OnlyOwnersGone, OthersKeepTheirs;
    var last := DeletePage(catalog, owner, page, keys);
    var remaining := catalog.ListOwnerPage(owner, Some(last), 1);
    next := if |remaining| > 0 then Some(last) else None;
    OwnersGoneKeepsOthers(sight0, tts0, catalog.sight.objects, catalog.tts.objects, owner);
  }

  method DeleteOwned(catalog: Catalog, owner: string, ref: Ref)
    requires catalog.sight != catalog.tts
    requires ref.bucket == SIGHT_BUCKET || ref.bucket == TTS_BUCKET
    requires KeyOf(ref.bucket, ref.path) in Owned(catalog.sight.objects, catalog.tts.objects, owner)
    modifies catalog.sight, catalog.tts
    ensures Owned(catalog.sight.objects, catalog.tts.objects, owner)
         == Owned(old(catalog.sight.objects), old(catalog.tts.objects), owner) - {KeyOf(ref.bucket, ref.path)}
    ensures OnlyOwnersGone(old(catalog.sight.objects), old(catalog.tts.objects), catalog.sight.objects, catalog.tts.objects, owner)
  {
    hide KeyOf, Owned, OnlyOwnersGone;
    DeletingOne(catalog.sight.objects, catalog.tts.objects, owner, ref);
    var known := catalog.DeleteObject(ref);
    BucketsDiffer();
  }

  method DeletePage(catalog: Catalog, owner: string, page: seq<Ref>, ghost keys: seq<string>) returns (last: string)
    requires catalog.sight != catalog.tts
    requires page != [] && AreRefs(page, keys) && Ascending(keys)
    requires forall k | k in keys :: k in Owned(catalog.sight.objects, catalog.tts.objects, owner)
    modifies catalog.sight, catalog.tts
    ensures Owned(catalog.sight.objects, catalog.tts.objects, owner)
         == Owned(old(catalog.sight.objects), old(catalog.tts.objects), owner) - Keys(keys)
    ensures OnlyOwnersGone(old(catalog.sight.objects), old(catalog.tts.objects), catalog.sight.objects, catalog.tts.objects, owner)
    ensures last == keys[|keys| - 1]
  {
    ghost var sight0, tts0 := catalog.sight.objects, catalog.tts.objects;
    last := "";
    hide *;
    NothingDeleted(sight0, tts0, owner, keys, page);
    for i := 0 to |page|
      invariant Deleted(sight0, tts0, catalog.sight.objects, catalog.tts.objects, owner, keys, i)
      invariant i > 0 ==> i <= |keys| && last == keys[i - 1]
    {
      ghost var sight1, tts1 := catalog.sight.objects, catalog.tts.objects;
      RefAt(page, keys, i);
      StillOwned(sight0, tts0, sight1, tts1, owner, keys, i);
      DeleteOwned(catalog, owner, page[i]);
      DeletedNext(sight0, tts0, sight1, tts1, catalog.sight.objects, catalog.tts.objects, owner, keys, i);
      last := KeyOf(page[i].bucket, page[i].path);
    }
    AllDeleted(sight0, tts0, catalog.sight.objects, catalog.tts.objects, owner, keys, page);
  }

  /** The first keys are gone and nothing else. */
  ghost predicate Deleted(sight0: Objects, tts0: Objects, sight: Objects, tts: Objects, owner: string, keys: seq<string>, n: nat) {
    && n <= |keys|
    && Owned(sight, tts, owner) == Owned(sight0, tts0, owner) - Keys(keys[..n])
    && OnlyOwnersGone(sight0, tts0, sight, tts, owner)
  }

  lemma NothingDeleted(sight: Objects, tts: Objects, owner: string, keys: seq<string>, page: seq<Ref>)
    requires AreRefs(page, keys)
    ensures |page| == |keys| && Deleted(sight, tts, sight, tts, owner, keys, 0)
  {
    hide Owned;
    GoneNothing(sight, SIGHT_BUCKET, SightPrefix(owner));
    GoneNothing(tts, TTS_BUCKET, TtsPrefix(owner));
  }

  lemma StillOwned(sight0: Objects, tts0: Objects, sight: Objects, tts: Objects, owner: string, keys: seq<string>, i: nat)
    requires Deleted(sight0, tts0, sight, tts, owner, keys, i) && i < |keys| && Ascending(keys)
    requires forall k | k in keys :: k in Owned(sight0, tts0, owner)
    ensures keys[i] in Owned(sight, tts, owner)
  {
    hide Owned, OnlyOwnersGone, Ascending;
    AscendingDistinct(keys, i);
    assert keys[i] in keys;
  }

  lemma DeletedNext(
      sight0: Objects, tts0: Objects, sight1: Objects, tts1: Objects, sight2: Objects, tts2: Objects,
      owner: string, keys: seq<string>, i: nat)
    requires Deleted(sight0, tts0, sight1, tts1, owner, keys, i) && i < |keys| && Ascending(keys)
    requires Owned(sight2, tts2, owner) == Owned(sight1, tts1, owner) - {keys[i]}
    requires OnlyOwnersGone(sight1, tts1, sight2, tts2, owner)
    ensures Deleted(sight0, tts0, sight2, tts2, owner, keys, i + 1)
  {
    hide Owned, OnlyOwnersGone, Ascending;
    AscendingDistinct(keys, i);
    OwnersGoneTransitive(sight0, tts0, sight1, tts1, sight2, tts2, owner);
  }

  lemma AllDeleted(sight0: Objects, tts0: Objects, sight: Objects, tts: Objects, owner: string, keys: seq<string>, page: seq<Ref>)
    requires |page| == |keys| && Deleted(sight0, tts0, sight, tts, owner, keys, |page|)
    ensures Owned(sight, tts, owner) == Owned(sight0, tts0, owner) - Keys(keys) && OnlyOwnersGone(sight0, tts0, sight, tts, owner)
  {
    hide Owned, OnlyOwnersGone;
    assert keys[..|page|] == keys;
  }

  lemma RefAt(page: seq<Ref>, keys: seq<string>, i: nat)
    requires AreRefs(page, keys) && i < |keys|
    ensures i < |page| && KeyOf(page[i].bucket, page[i].path) == keys[i]
    ensures page[i].bucket == SIGHT_BUCKET || page[i].bucket == TTS_BUCKET
  {
  }

  lemma GoneNothing(a: Objects, bucket: string, prefix: string)
    ensures OnlyGoneUnder(a, a, bucket, prefix)
  {
  }

  lemma OwnersGoneTransitive(
      sight0: Objects, tts0: Objects, sight1: Objects, tts1: Objects, sight2: Objects, tts2: Objects, owner: string)
    requires OnlyOwnersGone(sight0, tts0, sight1, tts1, owner) && OnlyOwnersGone(sight1, tts1, sight2, tts2, owner)
    ensures OnlyOwnersGone(sight0, tts0, sight2, tts2, owner)
  {
    GoneTransitive(sight0, sight1, sight2, SIGHT_BUCKET, SightPrefix(owner));
    GoneTransitive(tts0, tts1, tts2, TTS_BUCKET, TtsPrefix(owner));
  }

  lemma AscendingDistinct(keys: seq<string>, i: nat)
    requires Ascending(keys) && i < |keys|
    ensures keys[i] !in Keys(keys[..i])
    ensures Keys(keys[..i + 1]) == Keys(keys[..i]) + {keys[i]}
  {
    Total();
    hide Less;
    assert keys[..i + 1] == keys[..i] + [keys[i]];
  }

  /**
    All ticks of an account, one for each page its objects fill: the owner has no object left in either store,
    and no other object was touched.
   */
  method DeleteAllObjects(catalog: Catalog, owner: string) returns (ticks: nat)
    requires catalog.sight != catalog.tts
    modifies catalog.sight, catalog.tts
    ensures Owned(catalog.sight.objects, catalog.tts.objects, owner) == {}
    ensures OnlyOwnersGone(old(catalog.sight.objects), old(catalog.tts.objects), catalog.sight.objects, catalog.tts.objects, owner)
    ensures OthersKeepTheirs(old(catalog.sight.objects), old(catalog.tts.objects), catalog.sight.objects, catalog.tts.objects, owner)
    ensures var n := |Owned(old(catalog.sight.objects), old(catalog.tts.objects), owner)|;
      ticks >= 1 && n <= ticks * STORAGE_PAGE && (ticks > 1 ==> n > (ticks - 1) * STORAGE_PAGE)
  {
    var cursor: Option<string> := None;
    var running := true;
    ticks := 0;
    ghost var sight0, tts0 := catalog.sight.objects, catalog.tts.objects;
    ghost var owned := Owned(sight0, tts0, owner);
    hide *;
    NoTickYet(sight0, tts0, owner);
    while running
      invariant OnlyOwnersGone(sight0, tts0, catalog.sight.objects, catalog.tts.objects, owner)
      invariant Ticked(owned, Owned(catalog.sight.objects, catalog.tts.objects, owner), cursor, running, ticks)
      decreases running, Remaining(owned, ticks)
    {
      ghost var sight1, tts1, cursor1 := catalog.sight.objects, catalog.tts.objects, cursor;
      cursor := DeleteStoragePage(catalog, owner, cursor);
      OwnersGoneTransitive(sight0, tts0, sight1, tts1, catalog.sight.objects, catalog.tts.objects, owner);
      NextTick(owned, Owned(sight1, tts1, owner), cursor1, cursor, ticks);
      running := cursor.Some?;
      ticks := ticks + 1;
    }
    TickCount(owned, Owned(catalog.sight.objects, catalog.tts.objects, owner), cursor, ticks);
    OwnersGoneKeepsOthers(sight0, tts0, catalog.sight.objects, catalog.tts.objects, owner);
  }

  /** After some ticks the objects left and the cursor are those of as many sweep steps. */
  ghost predicate Ticked(owned: set<string>, left: set<string>, cursor: Option<string>, running: bool, ticks: nat) {
    var s := Run(Start(owned), Pages(ticks), STORAGE_PAGE);
    && s.objects == left && (running <==> !s.done) && (running ==> s.cursor == cursor)
    && (!running ==> ticks >= 1)
    && (ticks > 1 ==> !Run(Start(owned), Pages(ticks - 1), STORAGE_PAGE).done)
  }

  ghost function Remaining(owned: set<string>, ticks: nat): nat {
    var s := Run(Start(owned), Pages(ticks), STORAGE_PAGE);
    |Above(s.objects, s.cursor)|
  }

  lemma NoTickYet(sight: Objects, tts: Objects, owner: string)
    ensures OnlyOwnersGone(sight, tts, sight, tts, owner)
    ensures Ticked(Owned(sight, tts, owner), Owned(sight, tts, owner), None, true, 0)
  {
    hide Owned;
    GoneNothing(sight, SIGHT_BUCKET, SightPrefix(owner));
    GoneNothing(tts, TTS_BUCKET, TtsPrefix(owner));
  }

  lemma NextTick(owned: set<string>, left: set<string>, cursor: Option<string>, next: Option<string>, ticks: nat)
    requires Ticked(owned, left, cursor, true, ticks)
    requires var t := SweepPage(State(left, cursor, false), STORAGE_PAGE); (next.None? <==> t.done) && (next.Some? ==> next == t.cursor)
    ensures Ticked(owned, SweepPage(State(left, cursor, false), STORAGE_PAGE).objects, next, next.Some?, ticks + 1)
    ensures next.Some? ==> Remaining(owned, ticks + 1) < Remaining(owned, ticks)
  {
    hide Run, Start, Pages, SweepPage, Above;
    var s := Run(Start(owned), Pages(ticks), STORAGE_PAGE);
    assert s == State(left, cursor, false);
    PagesStep(Start(owned), STORAGE_PAGE, ticks);
    PageAdvances(s, STORAGE_PAGE);
  }

  lemma TickCount(owned: set<string>, left: set<string>, cursor: Option<string>, ticks: nat)
    requires Ticked(owned, left, cursor, false, ticks)
    ensures left == {} && ticks >= 1
    ensures |owned| <= ticks * STORAGE_PAGE && (ticks > 1 ==> |owned| > (ticks - 1) * STORAGE_PAGE)
  {
    hide Run, Start, Pages;
    UndisturbedSweep(owned, STORAGE_PAGE, ticks);
    if ticks > 1 {
      UndisturbedSweep(owned, STORAGE_PAGE, ticks - 1);
    }
  }
}
