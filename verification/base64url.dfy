/** The URL-safe base64 of RFC 4648, section 5, without padding (section 3.2), and the lenient decoder behind it. */
module Base64Url {
  import opened Common
  import opened Bytes

  type sextet = v: int | 0 <= v < 64

  function Digit(v: sextet): char {
    if v < 26 then (65 + v) as char
    else if v < 52 then (71 + v) as char
    else if v < 62 then (v - 4) as char
    else if v == 62 then '-'
    else '_'
  }

  /** The value of a character; the decoder also takes the two characters of the plain alphabet. */
  function ValueOf(c: char): Option<sextet> {
    if 'A' <= c <= 'Z' then Some(c as int - 65)
    else if 'a' <= c <= 'z' then Some(c as int - 71)
    else if '0' <= c <= '9' then Some(c as int + 4)
    else if c == '-' || c == '+' then Some(62)
    else if c == '_' || c == '/' then Some(63)
    else None
  }

  lemma DigitValue(v: sextet)
    ensures ValueOf(Digit(v)) == Some(v)
    ensures DataCharacter(Digit(v))
  {
  }

  // ---------- encoding ----------

  function Group(a: byte, b: byte, c: byte): string {
    [Digit(a / 4), Digit(a % 4 * 16 + b / 16), Digit(b % 16 * 4 + c / 64), Digit(c % 64)]
  }

  function Tail(s: seq<byte>): string
    requires 1 <= |s| <= 2
  {
    if |s| == 1 then [Digit(s[0] / 4), Digit(s[0] % 4 * 16)]
    else [Digit(s[0] / 4), Digit(s[0] % 4 * 16 + s[1] / 16), Digit(s[1] % 16 * 4)]
  }

  function Equals(n: nat): (s: string)
    ensures |s| == n
  {
    if n == 0 then "" else Equals(n - 1) + "="
  }

  function Encode(s: seq<byte>): string {
    if s == [] then ""
    else if |s| < 3 then Tail(s) + Equals(3 - |s|)
    else Group(s[0], s[1], s[2]) + Encode(s[3..])
  }

  function StripEquals(s: string): string {
    if s != "" && s[|s| - 1] == '=' then StripEquals(s[..|s| - 1]) else s
  }

  function EncodeUnpadded(s: seq<byte>): string {
    StripEquals(Encode(s))
  }

  // ---------- decoding ----------

  /**
    The decoder's scan: quad counts the characters of the current group, left holds the bits not yet
    written, pads the pad characters seen since. Other characters are skipped; a completed pad ends the scan.
   */
  function Scan(s: string, quad: nat, left: int, pads: nat): Option<seq<byte>>
    requires quad < 4 && 0 <= left < (if quad == 0 then 1 else if quad == 1 then 64 else if quad == 2 then 16 else 4)
  {
    if s == "" then if quad == 0 then Some([]) else None
    else if s[0] == '=' then
      if quad >= 2 && quad + pads + 1 >= 4 then Some([])
      else Scan(s[1..], quad, left, if quad >= 2 then pads + 1 else pads)
    else if ValueOf(s[0]).None? then Scan(s[1..], quad, left, pads)
    else
      var v := ValueOf(s[0]).value;
      if quad == 0 then Scan(s[1..], 1, v, 0)
      else if quad == 1 then Emit(left * 4 + v / 16, Scan(s[1..], 2, v % 16, 0))
      else if quad == 2 then Emit(left * 16 + v / 4, Scan(s[1..], 3, v % 4, 0))
      else Emit(left * 64 + v, Scan(s[1..], 0, 0, 0))
  }

  function Emit(b: byte, rest: Option<seq<byte>>): Option<seq<byte>> {
    if rest.None? then None else Some([b] + rest.value)
  }

  predicate Ascii(s: string) {
    forall i | 0 <= i < |s| :: s[i] as int < 128
  }

  function Padding(n: nat): nat {
    (4 - n % 4) % 4
  }

  function Decode(s: string): Option<seq<byte>> {
    if !Ascii(s) then None else Scan(s + Equals(Padding(|s|)), 0, 0, 0)
  }

  // ---------- round trip ----------

  predicate IsDigit(c: char, v: sextet) {
    c != '=' && ValueOf(c) == Some(v)
  }

  /** One scanning step over a digit. */
  lemma DigitScanned(c: char, v: sextet, rest: string, quad: nat, left: int)
    requires IsDigit(c, v)
    requires quad < 4 && 0 <= left < (if quad == 0 then 1 else if quad == 1 then 64 else if quad == 2 then 16 else 4)
    ensures Scan([c] + rest, quad, left, 0)
         == if quad == 0 then Scan(rest, 1, v, 0)
            else if quad == 1 then Emit(left * 4 + v / 16, Scan(rest, 2, v % 16, 0))
            else if quad == 2 then Emit(left * 16 + v / 4, Scan(rest, 3, v % 4, 0))
            else Emit(left * 64 + v, Scan(rest, 0, 0, 0))
  {
    hide ValueOf;
    assert ([c] + rest)[1..] == rest;
  }

  lemma PadText()
    ensures Equals(0) == "" && Equals(1) == "=" && Equals(2) == "=="
  {
    assert Equals(1) == Equals(0) + "=";
    assert Equals(2) == Equals(1) + "=";
  }

  lemma PadScanned(left: int)
    ensures 0 <= left < 16 ==> Scan("==", 2, left, 0) == Some([])
    ensures 0 <= left < 4 ==> Scan("=", 3, left, 0) == Some([])
  {
    assert "=="[1..] == "=";
  }

  /** The bits of a byte split over two characters come together again. */
  lemma BitsJoin(a: int, low: int)
    requires 0 <= a < 256
    ensures 0 <= low < 16 ==> a / 4 * 4 + (a % 4 * 16 + low) / 16 == a && (a % 4 * 16 + low) % 16 == low
    ensures 0 <= low < 4 ==> a / 16 * 16 + (a % 16 * 4 + low) / 4 == a && (a % 16 * 4 + low) % 4 == low
    ensures a / 64 * 64 + a % 64 == a
  {
  }

  lemma FourScanned(w: sextet, x: sextet, y: sextet, z: sextet, rest: string)
    ensures Scan([Digit(w), Digit(x), Digit(y), Digit(z)] + rest, 0, 0, 0)
         == Emit(w * 4 + x / 16, Emit(x % 16 * 16 + y / 4, Emit(y % 4 * 64 + z, Scan(rest, 0, 0, 0))))
  {
    DigitValue(w);
    DigitValue(x);
    DigitValue(y);
    DigitValue(z);
    hide Digit, ValueOf, Scan;
    var r3 := [Digit(z)] + rest;
    var r2 := [Digit(y)] + r3;
    var r1 := [Digit(x)] + r2;
    assert [Digit(w), Digit(x), Digit(y), Digit(z)] + rest == [Digit(w)] + r1;
    DigitScanned(Digit(w), w, r1, 0, 0);
    DigitScanned(Digit(x), x, r2, 1, w);
    DigitScanned(Digit(y), y, r3, 2, x % 16);
    DigitScanned(Digit(z), z, rest, 3, y % 4);
  }

  lemma GroupScanned(a: byte, b: byte, c: byte, rest: string)
    ensures Scan(Group(a, b, c) + rest, 0, 0, 0) == Emit(a, Emit(b, Emit(c, Scan(rest, 0, 0, 0))))
  {
    BitsJoin(a, b / 16);
    BitsJoin(b, c / 64);
    BitsJoin(c, 0);
    hide Scan, Digit;
    FourScanned(a / 4, a % 4 * 16 + b / 16, b % 16 * 4 + c / 64, c % 64, rest);
  }

  /** A last group of one byte may end in any of sixteen characters, one of two bytes in any of four. */
  lemma TailScanned(s: seq<byte>, extra: int)
    requires 1 <= |s| <= 2 && 0 <= extra < (if |s| == 1 then 16 else 4)
    ensures Scan(SpelledTail(s, extra) + Equals(3 - |s|), 0, 0, 0) == Some(s)
  {
    PadText();
    hide Scan, ValueOf, Equals, Digit;
    if |s| == 1 {
      assert s == [s[0]];
      OneByteTail(s[0], extra);
    } else {
      assert s == [s[0], s[1]];
      TwoByteTail(s[0], s[1], extra);
    }
  }

  lemma OneByteTail(a: byte, extra: int)
    requires 0 <= extra < 16
    ensures Scan(SpelledTail([a], extra) + "==", 0, 0, 0) == Some([a])
  {
    var x: sextet, y: sextet := a / 4, a % 4 * 16 + extra;
    DigitValue(x);
    DigitValue(y);
    hide Digit, Scan, ValueOf;
    assert SpelledTail([a], extra) + "==" == [Digit(x)] + ([Digit(y)] + "==");
    DigitScanned(Digit(x), x, [Digit(y)] + "==", 0, 0);
    DigitScanned(Digit(y), y, "==", 1, x);
    PadScanned(y % 16);
    BitsJoin(a, extra);
    assert [a] + [] == [a];
  }

  lemma TwoByteTail(a: byte, b: byte, extra: int)
    requires 0 <= extra < 4
    ensures Scan(SpelledTail([a, b], extra) + "=", 0, 0, 0) == Some([a, b])
  {
    var x: sextet, y: sextet, z: sextet := a / 4, a % 4 * 16 + b / 16, b % 16 * 4 + extra;
    DigitValue(x);
    DigitValue(y);
    DigitValue(z);
    hide Digit, Scan, ValueOf;
    assert SpelledTail([a, b], extra) + "=" == [Digit(x)] + ([Digit(y)] + ([Digit(z)] + "="));
    DigitScanned(Digit(x), x, [Digit(y)] + ([Digit(z)] + "="), 0, 0);
    DigitScanned(Digit(y), y, [Digit(z)] + "=", 1, x);
    DigitScanned(Digit(z), z, "=", 2, y % 16);
    PadScanned(z % 4);
    BitsJoin(a, b / 16);
    BitsJoin(b, extra);
    assert [b] + [] == [b] && [a] + [b] == [a, b];
  }

  function SpelledTail(s: seq<byte>, extra: int): string
    requires 1 <= |s| <= 2 && 0 <= extra < (if |s| == 1 then 16 else 4)
  {
    if |s| == 1 then [Digit(s[0] / 4), Digit(s[0] % 4 * 16 + extra)]
    else [Digit(s[0] / 4), Digit(s[0] % 4 * 16 + s[1] / 16), Digit(s[1] % 16 * 4 + extra)]
  }

  lemma {:induction false} ScanEncoded(s: seq<byte>)
    ensures Scan(Encode(s), 0, 0, 0) == Some(s)
  {
    if s == [] {
    } else if |s| < 3 {
      assert Tail(s) == SpelledTail(s, 0);
      TailScanned(s, 0);
    } else {
      ScanEncoded(s[3..]);
      GroupScanned(s[0], s[1], s[2], Encode(s[3..]));
      assert s == [s[0]] + ([s[1]] + ([s[2]] + s[3..]));
    }
  }

  /** Encoded text is digits followed by the pad that makes whole groups of four. */
  predicate Padded(s: string, digits: nat) {
    && digits <= |s| && |s| == digits + Padding(digits)
    && (forall i | 0 <= i < digits :: DataCharacter(s[i]))
    && (forall i | digits <= i < |s| :: s[i] == '=')
  }

  function DigitCount(n: nat): nat {
    n / 3 * 4 + if n % 3 == 0 then 0 else n % 3 + 1
  }

  predicate DataCharacter(c: char) {
    c != '=' && c as int < 128
  }

  lemma PadsComplete(t: string)
    requires forall i | 0 <= i < |t| :: DataCharacter(t[i])
    ensures Padded(t + Equals(Padding(|t|)), |t|)
  {
    hide DataCharacter;
    forall i: nat | i < Padding(|t|) ensures Equals(Padding(|t|))[i] == '=' {
      EqualsAt(Padding(|t|), i);
    }
    hide Equals, Padding;
  }

  lemma TailIsPadded(s: seq<byte>)
    requires 1 <= |s| <= 2
    ensures Padded(Tail(s) + Equals(3 - |s|), |s| + 1)
  {
    TailCharacters(s);
    PadsComplete(Tail(s));
    Pads(|s|);
    hide *;
  }

  lemma Pads(n: nat)
    ensures 1 <= n <= 2 ==> Padding(n + 1) == 3 - n
  {
  }

  lemma TailCharacters(s: seq<byte>)
    requires 1 <= |s| <= 2
    ensures |Tail(s)| == |s| + 1 && forall i | 0 <= i < |Tail(s)| :: DataCharacter(Tail(s)[i])
  {
    hide Digit;
    DigitValue(s[0] / 4);
    if |s| == 1 {
      DigitValue(s[0] % 4 * 16);
    } else {
      DigitValue(s[0] % 4 * 16 + s[1] / 16);
      DigitValue(s[1] % 16 * 4);
    }
  }

  lemma PaddedAfterGroup(a: byte, b: byte, c: byte, rest: string, digits: nat)
    requires Padded(rest, digits)
    ensures Padded(Group(a, b, c) + rest, digits + 4)
  {
    DigitValue(a / 4);
    DigitValue(a % 4 * 16 + b / 16);
    DigitValue(b % 16 * 4 + c / 64);
    DigitValue(c % 64);
    hide Digit, DataCharacter;
    assert forall i | 0 <= i < 4 :: DataCharacter(Group(a, b, c)[i]);
    hide Group;
  }

  lemma {:induction false} EncodedIsPadded(s: seq<byte>)
    ensures Padded(Encode(s), DigitCount(|s|))
  {
    hide Padded, Tail, Group, Equals;
    if s == [] {
      assert Padded("", 0) by {
        NothingPadded();
      }
    } else if |s| < 3 {
      TailIsPadded(s);
    } else {
      EncodedIsPadded(s[3..]);
      PaddedAfterGroup(s[0], s[1], s[2], Encode(s[3..]), DigitCount(|s[3..]|));
      assert DigitCount(|s|) == DigitCount(|s[3..]|) + 4;
    }
  }

  lemma NothingPadded()
    ensures Padded("", 0)
  {
  }

  lemma {:induction false} StripPadded(s: string, digits: nat)
    requires digits <= |s|
    requires forall i | 0 <= i < digits :: s[i] != '='
    requires forall i | digits <= i < |s| :: s[i] == '='
    ensures StripEquals(s) == s[..digits]
  {
    if digits < |s| {
      StripPadded(s[..|s| - 1], digits);
    }
  }

  lemma {:induction false} EqualsAt(n: nat, i: nat)
    requires i < n
    ensures Equals(n)[i] == '='
  {
    if i < n - 1 {
      EqualsAt(n - 1, i);
    }
  }

  lemma RestorePadding(s: string, digits: nat)
    requires Padded(s, digits)
    ensures StripEquals(s) == s[..digits] && Ascii(s[..digits]) && s[..digits] + Equals(Padding(digits)) == s
  {
    StripPadded(s, digits);
    forall i: nat | i < Padding(digits) ensures Equals(Padding(digits))[i] == '=' {
      EqualsAt(Padding(digits), i);
    }
  }

  /** Decoding undoes encoding for data of any length: the stripped padding is restored exactly. */
  lemma DecodeEncode(s: seq<byte>)
    ensures Decode(EncodeUnpadded(s)) == Some(s)
    ensures Ascii(EncodeUnpadded(s)) && |EncodeUnpadded(s)| == DigitCount(|s|)
  {
    EncodedIsPadded(s);
    RestorePadding(Encode(s), DigitCount(|s|));
    ScanEncoded(s);
  }

  // ---------- the decoder accepts other spellings ----------

  function Prepend(s: seq<byte>, rest: Option<seq<byte>>): Option<seq<byte>> {
    if rest.None? then None else Some(s + rest.value)
  }

  lemma {:induction false} ScanFront(front: seq<byte>, rest: string)
    requires |front| % 3 == 0
    ensures Scan(Encode(front) + rest, 0, 0, 0) == Prepend(front, Scan(rest, 0, 0, 0))
  {
    hide Scan, Group;
    if front == [] {
      assert "" + rest == rest;
      assert Scan(rest, 0, 0, 0).Some? ==> [] + Scan(rest, 0, 0, 0).value == Scan(rest, 0, 0, 0).value;
    } else {
      var back := front[3..];
      ScanFront(back, rest);
      assert Encode(front) + rest == Group(front[0], front[1], front[2]) + (Encode(back) + rest);
      GroupScanned(front[0], front[1], front[2], Encode(back) + rest);
      var r := Scan(rest, 0, 0, 0);
      assert r.Some? ==> front + r.value == [front[0]] + ([front[1]] + ([front[2]] + (back + r.value)));
    }
  }

  lemma {:induction false} EncodeFront(front: seq<byte>, tail: seq<byte>)
    requires |front| % 3 == 0
    ensures Encode(front + tail) == Encode(front) + Encode(tail)
  {
    hide Group;
    if front == [] {
      assert front + tail == tail && "" + Encode(tail) == Encode(tail);
    } else {
      EncodeFront(front[3..], tail);
      assert (front + tail)[3..] == front[3..] + tail;
    }
  }

  /**
    When the data does not fill its last group, the last character of the encoding has bits that the
    decoder ignores: sixteen (or four) different texts decode to the same bytes, the encoding among them.
   */
  lemma OtherSpellings(front: seq<byte>, tail: seq<byte>, extra: int)
    requires |front| % 3 == 0 && 1 <= |tail| <= 2 && 0 <= extra < (if |tail| == 1 then 16 else 4)
    ensures Decode(Encode(front) + SpelledTail(tail, extra)) == Some(front + tail)
    ensures EncodeUnpadded(front + tail) == Encode(front) + SpelledTail(tail, 0)
  {
    SpellingDecodes(front, tail, extra);
    SpellingZero(front, tail);
  }

  lemma SpellingDecodes(front: seq<byte>, tail: seq<byte>, extra: int)
    requires |front| % 3 == 0 && 1 <= |tail| <= 2 && 0 <= extra < (if |tail| == 1 then 16 else 4)
    ensures Decode(Encode(front) + SpelledTail(tail, extra)) == Some(front + tail)
  {
    SpelledAscii(tail, extra);
    GroupsAscii(front);
    TailScanned(tail, extra);
    SpelledLength(tail, extra);
    hide *;
    Glue(front, SpelledTail(tail, extra), 3 - |tail|, tail);
  }

  lemma SpelledLength(tail: seq<byte>, extra: int)
    requires 1 <= |tail| <= 2 && 0 <= extra < (if |tail| == 1 then 16 else 4)
    ensures |SpelledTail(tail, extra)| == |tail| + 1
  {
    hide Digit;
  }

  lemma Glue(front: seq<byte>, t: string, pads: nat, tail: seq<byte>)
    requires |front| % 3 == 0 && 1 <= pads <= 2 && |t| == 4 - pads && Ascii(t)
    requires Ascii(Encode(front)) && |Encode(front)| == |front| / 3 * 4
    requires Scan(t + Equals(pads), 0, 0, 0) == Some(tail)
    ensures Decode(Encode(front) + t) == Some(front + tail)
  {
    hide *;
    AsciiConcat(Encode(front), t);
    PaddingAfter(|front| / 3, |t|);
    ScanFront(front, t + Equals(pads));
    ScanWhole(Encode(front), t, pads);
    FrontAndTail(front, tail);
  }

  lemma FrontAndTail(front: seq<byte>, tail: seq<byte>)
    ensures Prepend(front, Some(tail)) == Some(front + tail)
  {
  }

  lemma ScanWhole(e: string, t: string, pads: nat)
    requires Ascii(e + t) && Padding(|e + t|) == pads
    ensures Decode(e + t) == Scan(e + (t + Equals(pads)), 0, 0, 0)
  {
    hide Scan, Equals, Padding, Ascii;
    assert e + t + Equals(pads) == e + (t + Equals(pads));
  }

  lemma PaddingAfter(groups: nat, digits: nat)
    requires 2 <= digits <= 3
    ensures Padding(groups * 4 + digits) == 4 - digits
  {
  }

  lemma AsciiConcat(s: string, t: string)
    requires Ascii(s) && Ascii(t)
    ensures Ascii(s + t)
  {
  }

  lemma GroupsAscii(front: seq<byte>)
    requires |front| % 3 == 0
    ensures Ascii(Encode(front)) && |Encode(front)| == |front| / 3 * 4
  {
    EncodedIsPadded(front);
    assert Padding(DigitCount(|front|)) == 0;
    hide Encode, Padding, DigitCount;
  }

  lemma SpellingZero(front: seq<byte>, tail: seq<byte>)
    requires |front| % 3 == 0 && 1 <= |tail| <= 2
    ensures EncodeUnpadded(front + tail) == Encode(front) + SpelledTail(tail, 0)
  {
    hide Encode, Padded, StripEquals, DataCharacter, Ascii;
    GroupsAscii(front);
    EncodeFront(front, tail);
    EncodedIsPadded(front + tail);
    RestorePadding(Encode(front + tail), DigitCount(|front + tail|));
    EncodeTail(tail);
    CountAfter(|front|, |tail|);
    var t := SpelledTail(tail, 0);
    assert |t| == |tail| + 1;
    hide SpelledTail, Equals, DigitCount;
    Cut(Encode(front), t, Equals(3 - |tail|));
  }

  lemma EncodeTail(tail: seq<byte>)
    requires 1 <= |tail| <= 2
    ensures Encode(tail) == SpelledTail(tail, 0) + Equals(3 - |tail|)
  {
    hide Digit, Equals;
    assert Tail(tail) == SpelledTail(tail, 0);
  }

  lemma CountAfter(front: nat, tail: nat)
    requires front % 3 == 0 && 1 <= tail <= 2
    ensures DigitCount(front + tail) == front / 3 * 4 + tail + 1
  {
  }

  lemma Cut(s: string, t: string, u: string)
    ensures (s + (t + u))[..|s| + |t|] == s + t
  {
  }

  lemma SpelledAscii(tail: seq<byte>, extra: int)
    requires 1 <= |tail| <= 2 && 0 <= extra < (if |tail| == 1 then 16 else 4)
    ensures Ascii(SpelledTail(tail, extra))
  {
    hide Digit;
    DigitValue(tail[0] / 4);
    if |tail| == 1 {
      DigitValue(tail[0] % 4 * 16 + extra);
    } else {
      DigitValue(tail[0] % 4 * 16 + tail[1] / 16);
      DigitValue(tail[1] % 16 * 4 + extra);
    }
  }

  // ---------- the decoder skips what is no digit ----------

  predicate Skipped(c: char) {
    c != '=' && c as int < 128 && ValueOf(c).None?
  }

  /** Characters outside the alphabet, in fours so that the padding stays right, may stand before any text. */
  lemma FillerIgnored(filler: string, s: string)
    requires |filler| % 4 == 0 && forall i | 0 <= i < |filler| :: Skipped(filler[i])
    ensures Decode(filler + s) == Decode(s)
  {
    var text := filler + s;
    assert Ascii(text) <==> Ascii(s) by {
      assert forall i | 0 <= i < |s| :: text[|filler| + i] == s[i];
      assert forall i | 0 <= i < |filler| :: text[i] == filler[i];
    }
    assert Padding(|text|) == Padding(|s|);
    hide Scan, Padding, Ascii, Equals;
    var pad := Equals(Padding(|s|));
    assert text + pad == filler + (s + pad);
    FillerScanned(filler, s + pad);
  }

  lemma {:induction false} FillerScanned(filler: string, s: string)
    requires forall i | 0 <= i < |filler| :: Skipped(filler[i])
    ensures Scan(filler + s, 0, 0, 0) == Scan(s, 0, 0, 0)
  {
    if filler == "" {
      assert "" + s == s;
    } else {
      assert (filler + s)[0] == filler[0] && (filler + s)[1..] == filler[1..] + s;
      FillerScanned(filler[1..], s);
    }
  }

  const FILLER: string := "!!!!"

  lemma FillerSkipped()
    ensures |FILLER| == 4 && forall i | 0 <= i < |FILLER| :: Skipped(FILLER[i])
  {
  }
}
