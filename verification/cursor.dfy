/**
  The keyset cursor token: a body, its MAC, base64url and a prefix for the kind of list. The MAC and the
  JSON text of the body are functions given from outside; HMAC-SHA-256 has 32 bytes (RFC 2104, section 2).
 */
module Cursors {
  import opened Common
  import opened Bytes
  import opened Base64Url

  const CURSOR_VERSION: int := 1
  const MAC_LENGTH: nat := 32

  const MESSAGES_PREFIX: string := "kelin.msg.v1."
  const MEMORIES_PREFIX: string := "kelin.mem.v1."
  const FRIENDS_PREFIX: string := "kelin.friend.v1."
  const POSTCARDS_PREFIX: string := "kelin.card.v1."

  datatype ListKind = Messages | Memories | Friends | Postcards

  datatype Cursor = Cursor(version: int, sortTime: int, id: nat, snapshotAt: int, filterHash: string)

  /** The MAC, and the printer and parser of bodies; a parse gives None for anything that is not a cursor body. */
  datatype Codec = Codec(mac: (seq<byte>, seq<byte>) -> seq<byte>, print_: Cursor -> seq<byte>, parse: seq<byte> -> Option<Cursor>)

  ghost predicate Sound(c: Codec) {
    && (forall secret, body :: |c.mac(secret, body)| == MAC_LENGTH)
    && (forall cursor :: c.print_(cursor) != [] && c.parse(c.print_(cursor)) == Some(cursor))
  }

  function Prefix(kind: ListKind): string {
    match kind
    case Messages => MESSAGES_PREFIX
    case Memories => MEMORIES_PREFIX
    case Friends => FRIENDS_PREFIX
    case Postcards => POSTCARDS_PREFIX
  }

  function EncodeCursor(c: Codec, kind: ListKind, secret: seq<byte>, cursor: Cursor): Option<string> {
    if cursor.version != CURSOR_VERSION then None
    else
      var body := c.print_(cursor);
      Some(Prefix(kind) + EncodeUnpadded(body + c.mac(secret, body)))
  }

  function DecodeCursor(c: Codec, kind: ListKind, secret: seq<byte>, expectedFilter: string, token: string): Option<Cursor> {
    if !(Prefix(kind) <= token) then None
    else
      var raw := Decode(token[|Prefix(kind)|..]);
      if raw.None? || |raw.value| <= MAC_LENGTH then None
      else
        var body, mac := raw.value[..|raw.value| - MAC_LENGTH], raw.value[|raw.value| - MAC_LENGTH..];
        if mac != c.mac(secret, body) then None
        else
          var payload := c.parse(body);
          if payload.None? then None
          else if payload.value.version != CURSOR_VERSION || payload.value.filterHash != expectedFilter then None
          else if payload.value.sortTime > payload.value.snapshotAt then None
          else payload
  }

  lemma DecodeRaw(c: Codec, kind: ListKind, made: seq<byte>, secret: seq<byte>, expectedFilter: string, cursor: Cursor, packed: string)
    requires Sound(c) && cursor.version == CURSOR_VERSION
    requires Decode(packed) == Some(c.print_(cursor) + c.mac(made, c.print_(cursor)))
    ensures DecodeCursor(c, kind, secret, expectedFilter, Prefix(kind) + packed)
         == if c.mac(secret, c.print_(cursor)) == c.mac(made, c.print_(cursor)) && expectedFilter == cursor.filterHash
               && cursor.sortTime <= cursor.snapshotAt then Some(cursor) else None
  {
    var body := c.print_(cursor);
    var raw := body + c.mac(made, body);
    hide Prefix, Decode;
    assert (Prefix(kind) + packed)[|Prefix(kind)|..] == packed;
    assert raw[..|raw| - MAC_LENGTH] == body && raw[|raw| - MAC_LENGTH..] == c.mac(made, body);
  }

  /**
    Round trip: a token decodes to its cursor exactly when the secret gives the same MAC, the filter is the
    cursor's own and the position is not after the snapshot; otherwise it is refused.
   */
  lemma RoundTripIff(c: Codec, kind: ListKind, made: seq<byte>, secret: seq<byte>, expectedFilter: string, cursor: Cursor)
    requires Sound(c) && cursor.version == CURSOR_VERSION
    ensures DecodeCursor(c, kind, secret, expectedFilter, EncodeCursor(c, kind, made, cursor).value)
         == if c.mac(secret, c.print_(cursor)) == c.mac(made, c.print_(cursor)) && expectedFilter == cursor.filterHash
               && cursor.sortTime <= cursor.snapshotAt then Some(cursor) else None
  {
    var raw := c.print_(cursor) + c.mac(made, c.print_(cursor));
    DecodeEncode(raw);
    hide Decode, EncodeUnpadded, Prefix, DecodeCursor;
    DecodeRaw(c, kind, made, secret, expectedFilter, cursor, EncodeUnpadded(raw));
  }

  /**
    Whatever body a token carries, it decodes if and only if its MAC is that of a body that is not empty, which
    parses to a cursor of this version, with the expected filter and a position not after its snapshot.
   */
  lemma DecodesIff(c: Codec, kind: ListKind, secret: seq<byte>, expectedFilter: string, body: seq<byte>, mac: seq<byte>)
    requires |mac| == MAC_LENGTH
    ensures DecodeCursor(c, kind, secret, expectedFilter, Prefix(kind) + EncodeUnpadded(body + mac))
         == if body != [] && mac == c.mac(secret, body) && c.parse(body).Some? && c.parse(body).value.version == 1
               && c.parse(body).value.filterHash == expectedFilter && c.parse(body).value.sortTime <= c.parse(body).value.snapshotAt
            then c.parse(body) else None
  {
    var raw := body + mac;
    DecodeEncode(raw);
    hide Prefix, Decode, EncodeUnpadded;
    assert (Prefix(kind) + EncodeUnpadded(raw))[|Prefix(kind)|..] == EncodeUnpadded(raw);
    assert raw[..|raw| - MAC_LENGTH] == body && raw[|raw| - MAC_LENGTH..] == mac;
  }

  /** A token of one kind of list is refused by every other kind, whatever the secret and filter. */
  lemma KindsDoNotMix(c: Codec, made: ListKind, kind: ListKind, secret: seq<byte>, expectedFilter: string, packed: string)
    requires made != kind
    ensures DecodeCursor(c, kind, secret, expectedFilter, Prefix(made) + packed) == None
  {
    hide Decode;
    var token := Prefix(made) + packed;
    assert token[6] == Prefix(made)[6] && token[7] == Prefix(made)[7];
    assert !(Prefix(kind) <= token);
  }

  /** Tokens are not unique: for every cursor that decodes, another text decodes to it as well. */
  lemma AnotherTokenDecodes(c: Codec, kind: ListKind, secret: seq<byte>, cursor: Cursor) returns (other: string)
    requires Sound(c) && cursor.version == CURSOR_VERSION && cursor.sortTime <= cursor.snapshotAt
    ensures other != EncodeCursor(c, kind, secret, cursor).value
    ensures DecodeCursor(c, kind, secret, cursor.filterHash, other) == Some(cursor)
  {
    var raw := c.print_(cursor) + c.mac(secret, c.print_(cursor));
    var packed := EncodeUnpadded(raw);
    DecodeEncode(raw);
    FillerSkipped();
    FillerIgnored(FILLER, packed);
    hide Decode, EncodeUnpadded, Prefix, DecodeCursor, FILLER;
    other := Prefix(kind) + (FILLER + packed);
    assert |other| == |Prefix(kind) + packed| + 4;
    DecodeRaw(c, kind, secret, secret, cursor.filterHash, cursor, FILLER + packed);
  }

  /**
    When body and MAC do not fill the last group, there is one that differs in its last character only, so
    changing that character need not spoil a token.
   */
  lemma AnotherLastCharacterDecodes(c: Codec, kind: ListKind, secret: seq<byte>, cursor: Cursor) returns (other: string)
    requires Sound(c) && cursor.version == CURSOR_VERSION && cursor.sortTime <= cursor.snapshotAt
    requires (|c.print_(cursor)| + MAC_LENGTH) % 3 != 0
    ensures var token := EncodeCursor(c, kind, secret, cursor).value;
      LastDiffers(token, other)
    ensures DecodeCursor(c, kind, secret, cursor.filterHash, other) == Some(cursor)
  {
    var raw := c.print_(cursor) + c.mac(secret, c.print_(cursor));
    var two := AnotherSpelling(raw);
    hide *;
    PrefixKept(Prefix(kind), EncodeUnpadded(raw), two);
    other := Prefix(kind) + two;
    Encoded(c, kind, secret, cursor);
    DecodeRaw(c, kind, secret, secret, cursor.filterHash, cursor, two);
  }

  lemma PrefixKept(p: string, s: string, t: string)
    requires LastDiffers(s, t)
    ensures LastDiffers(p + s, p + t)
  {
    assert (p + s)[|p + s| - 1] == s[|s| - 1] && (p + t)[|p + t| - 1] == t[|t| - 1];
    assert (p + s)[..|p + s| - 1] == p + s[..|s| - 1];
    assert (p + t)[..|p + t| - 1] == p + t[..|t| - 1];
  }

  predicate LastDiffers(s: string, t: string) {
    |s| == |t| > 0 && s[|s| - 1] != t[|s| - 1] && s[..|s| - 1] == t[..|s| - 1]
  }

  lemma AnotherSpelling(raw: seq<byte>) returns (two: string)
    requires |raw| % 3 != 0
    ensures Decode(two) == Some(raw) && LastDiffers(EncodeUnpadded(raw), two)
  {
    hide *;
    var front, tail := Groups(raw);
    OtherSpellings(front, tail, 0);
    OtherSpellings(front, tail, 1);
    LastCharactersDiffer(tail);
    PrefixKept(Encode(front), SpelledTail(tail, 0), SpelledTail(tail, 1));
    two := Encode(front) + SpelledTail(tail, 1);
  }

  lemma Groups(raw: seq<byte>) returns (front: seq<byte>, tail: seq<byte>)
    requires |raw| % 3 != 0
    ensures raw == front + tail && |front| % 3 == 0 && 1 <= |tail| <= 2
  {
    var n := |raw| / 3 * 3;
    front, tail := raw[..n], raw[n..];
  }

  lemma Encoded(c: Codec, kind: ListKind, secret: seq<byte>, cursor: Cursor)
    requires cursor.version == CURSOR_VERSION
    ensures EncodeCursor(c, kind, secret, cursor) == Some(Prefix(kind) + EncodeUnpadded(c.print_(cursor) + c.mac(secret, c.print_(cursor))))
  {
  }

  lemma LastCharactersDiffer(tail: seq<byte>)
    requires 1 <= |tail| <= 2
    ensures LastDiffers(SpelledTail(tail, 0), SpelledTail(tail, 1))
  {
    hide Digit, ValueOf;
    if |tail| == 1 {
      DigitValue(tail[0] % 4 * 16);
      DigitValue(tail[0] % 4 * 16 + 1);
    } else {
      DigitValue(tail[1] % 16 * 4);
      DigitValue(tail[1] % 16 * 4 + 1);
    }
  }
}
