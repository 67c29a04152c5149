/** Whose an object is: the second segment of its path, in both stores. */
module AccountOwners {
  import opened Bytes
  import opened AccountStorage

  // ---------- the segments of a path ----------

  predicate Slashless(s: string) {
    forall i | 0 <= i < |s| :: s[i] != '/'
  }

  /** The path cut at its slashes. */
  function Parts(path: string): (parts: seq<string>)
    ensures |parts| >= 1
  {
    if path == "" then [""]
    else if path[0] == '/' then [""] + Parts(path[1..])
    else
      var rest := Parts(path[1..]);
      [[path[0]] + rest[0]] + rest[1..]
  }

  lemma {:induction false} PartsAfter(part: string, rest: string)
    requires Slashless(part)
    ensures Parts(part + "/" + rest) == [part] + Parts(rest)
  {
    var path := part + "/" + rest;
    if part == "" {
      assert path[1..] == rest;
    } else {
      assert path[1..] == part[1..] + "/" + rest && path[0] == part[0];
      PartsAfter(part[1..], rest);
      assert [part[0]] + part[1..] == part;
    }
  }

  lemma {:induction false} OnePart(part: string)
    requires Slashless(part)
    ensures Parts(part) == [part]
  {
    if part != "" {
      OnePart(part[1..]);
      assert [part[0]] + part[1..] == part;
    }
  }

  /** What follows the first slash. */
  lemma {:induction false} FirstPart(path: string) returns (rest: string)
    requires |Parts(path)| >= 2
    ensures path == Parts(path)[0] + "/" + rest && Parts(rest) == Parts(path)[1..]
  {
    if path[0] == '/' {
      rest := path[1..];
    } else {
      rest := FirstPart(path[1..]);
      assert path == [path[0]] + path[1..];
    }
  }

  /** A prefix of two whole segments is a matter of the first two segments. */
  lemma TwoSegments(first: string, second: string, path: string)
    requires Slashless(first) && Slashless(second)
    ensures first + "/" + second + "/" <= path <==> |Parts(path)| >= 3 && Parts(path)[0] == first && Parts(path)[1] == second
  {
    hide Parts, Slashless;
    if first + "/" + second + "/" <= path {
      BeginsWithTwo(first, second, path);
    }
    if |Parts(path)| >= 3 && Parts(path)[0] == first && Parts(path)[1] == second {
      var after := FirstPart(path);
      var rest := FirstPart(after);
      Regrouped(first, second, rest);
      assert path == first + "/" + second + "/" + rest;
    }
  }

  lemma BeginsWithTwo(first: string, second: string, path: string)
    requires Slashless(first) && Slashless(second) && first + "/" + second + "/" <= path
    ensures |Parts(path)| >= 3 && Parts(path)[0] == first && Parts(path)[1] == second
  {
    hide Parts, Slashless;
    var rest := path[|first + "/" + second + "/"|..];
    assert path == first + "/" + second + "/" + rest;
    Regrouped(first, second, rest);
    PartsAfter(first, second + "/" + rest);
    PartsAfter(second, rest);
  }

  lemma Regrouped(first: string, second: string, rest: string)
    ensures first + "/" + (second + "/" + rest) == first + "/" + second + "/" + rest
  {
  }

  // ---------- the owner of a path ----------

  /** A path of at least three segments, of which the second is the owner. */
  predicate BelongsTo(path: string, folder: string, owner: string) {
    |Parts(path)| >= 3 && Parts(path)[0] == folder && Parts(path)[1] == owner
  }

  lemma PrefixIsOwner(path: string, owner: string)
    requires Slashless(owner)
    ensures SightPrefix(owner) <= path <==> BelongsTo(path, "sight-temp", owner)
    ensures TtsPrefix(owner) <= path <==> BelongsTo(path, "tts", owner)
  {
    TwoSegments("sight-temp", owner, path);
    TwoSegments("tts", owner, path);
  }

  /** The objects of an account, in terms of the segments of their paths. */
  lemma OwnedIff(sight: Objects, tts: Objects, owner: string, bucket: string, path: string)
    requires Slashless(owner) && (bucket == SIGHT_BUCKET || bucket == TTS_BUCKET)
    ensures KeyOf(bucket, path) in Owned(sight, tts, owner) <==>
      || (bucket == SIGHT_BUCKET && (bucket, path) in sight && BelongsTo(path, "sight-temp", owner))
      || (bucket == TTS_BUCKET && (bucket, path) in tts && BelongsTo(path, "tts", owner))
  {
    BucketsDiffer();
    PrefixIsOwner(path, owner);
    hide SightPrefix, TtsPrefix, KeyOf, RefOf, BelongsTo;
    RefOfKey(bucket, path);
    forall p | KeyOf(SIGHT_BUCKET, p) == KeyOf(bucket, path) || KeyOf(TTS_BUCKET, p) == KeyOf(bucket, path)
      ensures p == path && (KeyOf(SIGHT_BUCKET, p) == KeyOf(bucket, path) ==> bucket == SIGHT_BUCKET)
                        && (KeyOf(TTS_BUCKET, p) == KeyOf(bucket, path) ==> bucket == TTS_BUCKET)
    {
      RefOfKey(SIGHT_BUCKET, p);
      RefOfKey(TTS_BUCKET, p);
    }
  }

  /** No path of either store lies under the prefixes of two owners. */
  lemma OneOwner(path: string, owner: string, other: string)
    requires Slashless(owner) && Slashless(other) && owner != other
    ensures !(SightPrefix(owner) <= path && SightPrefix(other) <= path)
    ensures !(TtsPrefix(owner) <= path && TtsPrefix(other) <= path)
  {
    PrefixIsOwner(path, owner);
    PrefixIsOwner(path, other);
    hide SightPrefix, TtsPrefix;
  }

  /** What deleting one account may do to the stores leaves every object of every other account as it was. */
  lemma OthersStay(sight: Objects, tts: Objects, sightNow: Objects, ttsNow: Objects, owner: string, other: string)
    requires Slashless(owner) && Slashless(other) && owner != other
    requires OnlyGoneUnder(sight, sightNow, SIGHT_BUCKET, SightPrefix(owner)) && OnlyGoneUnder(tts, ttsNow, TTS_BUCKET, TtsPrefix(owner))
    ensures Owned(sightNow, ttsNow, other) == Owned(sight, tts, other)
    ensures forall k | k in sight && SightPrefix(other) <= k.1 :: k in sightNow && sightNow[k] == sight[k]
    ensures forall k | k in tts && TtsPrefix(other) <= k.1 :: k in ttsNow && ttsNow[k] == tts[k]
  {
    forall k | k in sight ensures !(SightPrefix(owner) <= k.1 && SightPrefix(other) <= k.1) {
      OneOwner(k.1, owner, other);
    }
    forall k | k in tts ensures !(TtsPrefix(owner) <= k.1 && TtsPrefix(other) <= k.1) {
      OneOwner(k.1, owner, other);
    }
    hide SightPrefix, TtsPrefix, KeyOf, Slashless;
    assert PathsUnder(sightNow, SIGHT_BUCKET, SightPrefix(other)) == PathsUnder(sight, SIGHT_BUCKET, SightPrefix(other));
    assert PathsUnder(ttsNow, TTS_BUCKET, TtsPrefix(other)) == PathsUnder(tts, TTS_BUCKET, TtsPrefix(other));
  }

  // ---------- the paths that are written ----------

  const SIGHT_OBJECT_EXT: string := ".jpg"
  const TTS_OBJECT_EXT: string := ".m4a"

  function SightObjectPath(owner: string, feed: string, upload: string): string {
    SIGHT_PATH_PREFIX + "/" + owner + "/" + feed + "/" + upload + SIGHT_OBJECT_EXT
  }

  function TtsObjectPath(owner: string, message: string, voice: string): string {
    TTS_PATH_PREFIX + "/" + owner + "/" + message + "/" + voice + TTS_OBJECT_EXT
  }

  predicate EndsWith(s: string, end: string) {
    |s| >= |end| && s[|s| - |end|..] == end
  }

  /** The check of a sight path before it is used: the expected path, and of four segments. */
  predicate ServerObjectPath(path: string, owner: string, feed: string, upload: string) {
    && path == SightObjectPath(owner, feed, upload)
    && |Parts(path)| == 4 && Parts(path)[0] == SIGHT_PATH_PREFIX && EndsWith(Parts(path)[3], SIGHT_OBJECT_EXT)
  }

  /** The same for speech, which names the owner once more. */
  predicate ServerTtsPath(path: string, owner: string, message: string, voice: string) {
    && path == TtsObjectPath(owner, message, voice)
    && |Parts(path)| == 4 && Parts(path)[0] == TTS_PATH_PREFIX && EndsWith(Parts(path)[3], TTS_OBJECT_EXT)
    && Parts(path)[1] == owner
  }

  lemma FourParts(folder: string, owner: string, middle: string, name: string, extension: string)
    requires Slashless(folder) && Slashless(owner) && Slashless(middle) && Slashless(name) && Slashless(extension)
    ensures var path := folder + "/" + owner + "/" + middle + "/" + name + extension;
      Parts(path) == [folder, owner, middle, name + extension] && EndsWith(Parts(path)[3], extension)
  {
    var path := folder + "/" + owner + "/" + middle + "/" + name + extension;
    assert path == folder + "/" + (owner + "/" + (middle + "/" + (name + extension)));
    PartsAfter(folder, owner + "/" + (middle + "/" + (name + extension)));
    PartsAfter(owner, middle + "/" + (name + extension));
    PartsAfter(middle, name + extension);
    OnePart(name + extension);
    hide Parts, Slashless;
  }

  /** The checks on segments never refuse a path that the server made, whatever the identifiers. */
  lemma ServerPathIff(path: string, owner: string, middle: string, name: string)
    requires Slashless(owner) && Slashless(middle) && Slashless(name)
    ensures ServerObjectPath(path, owner, middle, name) <==> path == SightObjectPath(owner, middle, name)
    ensures ServerTtsPath(path, owner, middle, name) <==> path == TtsObjectPath(owner, middle, name)
  {
    FourParts(SIGHT_PATH_PREFIX, owner, middle, name, SIGHT_OBJECT_EXT);
    FourParts(TTS_PATH_PREFIX, owner, middle, name, TTS_OBJECT_EXT);
    hide Parts, Slashless, EndsWith;
  }

  /** A stored upload is among the objects of its own owner and of nobody else; so is stored speech. */
  lemma WrittenIsOwned(sight: Objects, tts: Objects, owner: string, middle: string, name: string, account: string)
    requires Slashless(owner) && Slashless(middle) && Slashless(name) && Slashless(account)
    requires (SIGHT_BUCKET, SightObjectPath(owner, middle, name)) in sight && (TTS_BUCKET, TtsObjectPath(owner, middle, name)) in tts
    ensures KeyOf(SIGHT_BUCKET, SightObjectPath(owner, middle, name)) in Owned(sight, tts, account) <==> account == owner
    ensures KeyOf(TTS_BUCKET, TtsObjectPath(owner, middle, name)) in Owned(sight, tts, account) <==> account == owner
  {
    BucketsDiffer();
    FourParts(SIGHT_PATH_PREFIX, owner, middle, name, SIGHT_OBJECT_EXT);
    FourParts(TTS_PATH_PREFIX, owner, middle, name, TTS_OBJECT_EXT);
    OwnedIff(sight, tts, account, SIGHT_BUCKET, SightObjectPath(owner, middle, name));
    OwnedIff(sight, tts, account, TTS_BUCKET, TtsObjectPath(owner, middle, name));
    hide Parts, Slashless, Owned, KeyOf;
  }
}
