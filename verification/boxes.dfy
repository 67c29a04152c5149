/** Bytes and big-endian integers. */
module Bytes {
  type byte = b: int | 0 <= b < 256

  function Pow256(k: nat): (p: nat)
    ensures p >= 1
  {
    if k == 0 then 1 else 256 * Pow256(k - 1)
  }

  function ToBytes(n: nat, k: nat): (s: seq<byte>)
    ensures |s| == k
  {
    if k == 0 then [] else ToBytes(n / 256, k - 1) + [n % 256]
  }

  function FromBytes(s: seq<byte>): nat {
    if s == [] then 0 else 256 * FromBytes(s[..|s| - 1]) + s[|s| - 1]
  }

  /** Writing k bytes and reading them back gives the number, exactly when it fits. */
  lemma {:induction false} FromToBytes(n: nat, k: nat)
    ensures FromBytes(ToBytes(n, k)) == n <==> n < Pow256(k)
    ensures FromBytes(ToBytes(n, k)) < Pow256(k)
  {
    if k > 0 {
      FromToBytes(n / 256, k - 1);
      assert ToBytes(n, k)[..k - 1] == ToBytes(n / 256, k - 1);
    }
  }

  lemma {:induction false} ToFromBytes(s: seq<byte>)
    ensures FromBytes(s) < Pow256(|s|) && ToBytes(FromBytes(s), |s|) == s
  {
    if s != [] {
      ToFromBytes(s[..|s| - 1]);
      assert s == s[..|s| - 1] + [s[|s| - 1]];
    }
  }
}

/** Boxes of ISO/IEC 14496-12, section 4.2: a size, a four-byte name and a payload. */
module Boxes {
  import opened Bytes

  datatype Error =
    | BoxTruncated | BadBoxName | FtypTruncated | FtypMissing | MvhdMissing | MoovMissing | MvhdTruncated
    | MvhdUnsupported | TimescaleInvalid | AudioEmpty | AudioTooLarge | NotM4a | TooShort | TooLong | BadFixture | Overflow

  datatype Result<+T> = Ok(value: T) | Invalid(error: Error)

  /** A box by its name and the range of its payload. */
  datatype Span = Span(name: seq<byte>, start: nat, end: nat)

  datatype Header = Header(length: nat, size: nat)

  const SIZE_LIMIT: nat := 0x1_0000_0000

  /** The header at offset: size zero runs to the limit, size one has the real size in the next eight bytes. */
  function HeaderAt(data: seq<byte>, offset: nat, limit: nat): Result<Header>
    requires offset + 8 <= limit <= |data|
  {
    var size := FromBytes(data[offset..offset + 4]);
    if size == 0 then Ok(Header(8, limit - offset))
    else if size == 1 && offset + 16 > limit then Invalid(BoxTruncated)
    else
      var h := if size == 1 then Header(16, FromBytes(data[offset + 8..offset + 16])) else Header(8, size);
      if h.size < h.length || offset + h.size > limit then Invalid(BoxTruncated) else Ok(h)
  }

  predicate RunsToEnd(data: seq<byte>, offset: nat)
    requires offset + 8 <= |data|
  {
    FromBytes(data[offset..offset + 4]) == 0
  }

  /** The boxes in a range; fewer than eight bytes at the end are ignored. */
  function BoxesIn(data: seq<byte>, start: nat, limit: nat): Result<seq<Span>>
    requires start <= limit <= |data|
    decreases limit - start
  {
    if start + 8 > limit then Ok([])
    else
      var h := HeaderAt(data, start, limit);
      if h.Invalid? then Invalid(h.error)
      else
        var first := Span(data[start + 4..start + 8], start + h.value.length, start + h.value.size);
        if RunsToEnd(data, start) then Ok([first])
        else Glue([first], BoxesIn(data, start + h.value.size, limit))
  }

  /** Boxes found so far, and what the rest of the walk gives. */
  function Glue(found: seq<Span>, rest: Result<seq<Span>>): Result<seq<Span>> {
    if rest.Invalid? then rest else Ok(found + rest.value)
  }

  lemma GlueLaws(found: seq<Span>, first: Span, rest: Result<seq<Span>>)
    ensures Glue([], rest) == rest && Glue(found, Ok([])) == Ok(found)
    ensures Glue(found, Glue([first], rest)) == Glue(found + [first], rest)
  {
    assert found + [] == found;
    if rest.Ok? {
      assert [] + rest.value == rest.value;
      assert found + ([first] + rest.value) == found + [first] + rest.value;
    }
  }

  lemma GlueOne(found: seq<Span>, last: Span)
    ensures Glue(found, Ok([last])) == Ok(found + [last])
  {
  }

  lemma GlueError(found: seq<Span>, error: Error)
    ensures Glue(found, Invalid(error)) == Invalid(error)
  {
  }

  method IterBoxes(data: seq<byte>, start: nat, limit: nat) returns (result: Result<seq<Span>>)
    requires start <= limit <= |data|
    ensures result == BoxesIn(data, start, limit)
  {
    hide FromBytes, Glue;
    var offset := start;
    var found := [];
    GlueLaws([], Span([], 0, 0), BoxesIn(data, start, limit));
    while offset + 8 <= limit
      invariant start <= offset <= limit
      invariant BoxesIn(data, start, limit) == Glue(found, BoxesIn(data, offset, limit))
      decreases limit - offset
    {
      var size := FromBytes(data[offset..offset + 4]);
      var name := data[offset + 4..offset + 8];
      if size == 0 {
        GlueOne(found, Span(name, offset + 8, limit));
        found := found + [Span(name, offset + 8, limit)];
        return Ok(found);
      }
      var header := 8;
      if size == 1 {
        if offset + 16 > limit {
          GlueError(found, BoxTruncated);
          return Invalid(BoxTruncated);
        }
        size := FromBytes(data[offset + 8..offset + 16]);
        header := 16;
      }
      if size < header || offset + size > limit {
        GlueError(found, BoxTruncated);
        return Invalid(BoxTruncated);
      }
      GlueLaws(found, Span(name, offset + header, offset + size), BoxesIn(data, offset + size, limit));
      found := found + [Span(name, offset + header, offset + size)];
      offset := offset + size;
    }
    GlueLaws(found, Span([], 0, 0), Ok([]));
    return Ok(found);
  }

  // ---------- what an accepted range looks like ----------

  /**
    The spans follow one another without gaps from start on, each behind a header of 8 or 16 bytes, stay
    within the limit, and leave less than a header at the end.
   */
  predicate Tiled(data: seq<byte>, start: nat, limit: nat, spans: seq<Span>)
    requires start <= limit <= |data|
    decreases |spans|
  {
    if spans == [] then limit - start < 8
    else
      var s := spans[0];
      && (s.start == start + 8 || s.start == start + 16)
      && s.start <= s.end <= limit
      && s.name == data[start + 4..start + 8]
      && Tiled(data, s.end, limit, spans[1..])
  }

  lemma {:induction false} AcceptedIsTiled(data: seq<byte>, start: nat, limit: nat)
    requires start <= limit <= |data| && BoxesIn(data, start, limit).Ok?
    ensures Tiled(data, start, limit, BoxesIn(data, start, limit).value)
    decreases limit - start
  {
    if start + 8 <= limit {
      var h := HeaderAt(data, start, limit).value;
      if !RunsToEnd(data, start) {
        AcceptedIsTiled(data, start + h.size, limit);
      }
    }
  }

  lemma {:induction false} TiledInside(data: seq<byte>, start: nat, limit: nat, spans: seq<Span>, i: nat)
    requires start <= limit <= |data| && Tiled(data, start, limit, spans) && i < |spans|
    ensures start < spans[i].start <= spans[i].end <= limit && |spans[i].name| == 4
    decreases |spans|
  {
    if i > 0 {
      TiledInside(data, spans[0].end, limit, spans[1..], i - 1);
    }
  }

  // ---------- printing ----------

  datatype Box = Box(name: seq<byte>, payload: seq<byte>)

  predicate Printable(b: Box) {
    |b.name| == 4 && 8 + |b.payload| < SIZE_LIMIT
  }

  function PrintBox(b: Box): Result<seq<byte>> {
    if |b.name| != 4 then Invalid(BadBoxName)
    else if 8 + |b.payload| >= SIZE_LIMIT then Invalid(Overflow)
    else Ok(BoxBytes(b))
  }

  function BoxBytes(b: Box): seq<byte> {
    ToBytes(8 + |b.payload|, 4) + b.name + b.payload
  }

  /** Printing box after box, up to the first that cannot be printed. */
  function PrintBoxes(boxes: seq<Box>): Result<seq<byte>> {
    if boxes == [] then Ok([])
    else
      var first := PrintBox(boxes[0]);
      if first.Invalid? then first
      else
        var rest := PrintBoxes(boxes[1..]);
        if rest.Invalid? then rest else Ok(first.value + rest.value)
  }

  lemma {:induction false} PrintBoxesOk(boxes: seq<Box>)
    ensures PrintBoxes(boxes).Ok? <==> forall i | 0 <= i < |boxes| :: Printable(boxes[i])
    ensures PrintBoxes(boxes).Ok? ==> PrintBoxes(boxes).value == PrintAll(boxes)
  {
    hide BoxBytes;
    if boxes != [] {
      PrintBoxesOk(boxes[1..]);
      assert forall i | 0 < i < |boxes| :: boxes[i] == boxes[1..][i - 1];
    }
  }

  function PrintAll(boxes: seq<Box>): seq<byte> {
    if boxes == [] then [] else BoxBytes(boxes[0]) + PrintAll(boxes[1..])
  }

  /** Where the boxes end up when they are printed from offset on. */
  function Layout(boxes: seq<Box>, offset: nat): seq<Span> {
    if boxes == [] then []
    else
      var end := offset + 8 + |boxes[0].payload|;
      [Span(boxes[0].name, offset + 8, end)] + Layout(boxes[1..], end)
  }

  lemma HeaderOfPrinted(data: seq<byte>, b: Box, offset: nat, limit: nat)
    requires Printable(b) && |b.name| == 4
    requires offset + 8 + |b.payload| <= limit <= |data|
    requires data[offset..offset + 8 + |b.payload|] == BoxBytes(b)
    ensures HeaderAt(data, offset, limit) == Ok(Header(8, 8 + |b.payload|)) && !RunsToEnd(data, offset)
    ensures data[offset + 4..offset + 8] == b.name && data[offset + 8..offset + 8 + |b.payload|] == b.payload
  {
    var n := 8 + |b.payload|;
    var window := data[offset..offset + n];
    assert window[..4] == ToBytes(n, 4) && window[4..8] == b.name && window[8..] == b.payload;
    assert data[offset..offset + 4] == window[..4];
    assert data[offset + 4..offset + 8] == window[4..8];
    assert data[offset + 8..offset + n] == window[8..];
    FromToBytes(n, 4);
    FourBytes();
  }

  lemma FourBytes()
    ensures Pow256(4) == SIZE_LIMIT
  {
    assert Pow256(1) == 256 && Pow256(2) == 65536 && Pow256(3) == 16777216;
  }

  /** The walker finds exactly the boxes that were printed, wherever in the data they lie. */
  lemma {:induction false} WalkPrinted(before: seq<byte>, boxes: seq<Box>, after: seq<byte>)
    requires forall i | 0 <= i < |boxes| :: Printable(boxes[i])
    ensures BoxesIn(before + PrintAll(boxes) + after, |before|, |before + PrintAll(boxes)|) == Ok(Layout(boxes, |before|))
    decreases |boxes|
  {
    hide HeaderAt, FromBytes, ToBytes, RunsToEnd;
    if boxes != [] {
      var data, b := before + PrintAll(boxes) + after, boxes[0];
      var first := BoxBytes(b);
      assert data == (before + first) + PrintAll(boxes[1..]) + after;
      assert before + PrintAll(boxes) == (before + first) + PrintAll(boxes[1..]);
      assert data[|before|..|before| + |first|] == first;
      HeaderOfPrinted(data, b, |before|, |before + PrintAll(boxes)|);
      WalkPrinted(before + first, boxes[1..], after);
    }
  }

  lemma {:induction false} LayoutPayload(before: seq<byte>, boxes: seq<Box>, after: seq<byte>, i: nat)
    requires (forall j | 0 <= j < |boxes| :: Printable(boxes[j])) && i < |boxes|
    ensures |Layout(boxes, |before|)| == |boxes|
    ensures var s := Layout(boxes, |before|)[i];
            && s.name == boxes[i].name && |before| <= s.start <= s.end <= |before + PrintAll(boxes)|
            && (before + PrintAll(boxes) + after)[s.start..s.end] == boxes[i].payload
    decreases |boxes|
  {
    hide HeaderAt, FromBytes, ToBytes, RunsToEnd, BoxBytes;
    var data, b := before + PrintAll(boxes) + after, boxes[0];
    var first := BoxBytes(b);
    BoxLength(b);
    assert data == (before + first) + PrintAll(boxes[1..]) + after;
    assert data[|before|..|before| + |first|] == first;
    if i == 0 {
      HeaderOfPrinted(data, b, |before|, |before + PrintAll(boxes)|);
      if |boxes| > 1 {
        LayoutPayload(before + first, boxes[1..], after, 0);
      }
    } else {
      LayoutPayload(before + first, boxes[1..], after, i - 1);
    }
  }

  // ---------- and back ----------

  /** Every box has a plain four-byte size and nothing is left over. */
  predicate Plain(data: seq<byte>, start: nat, limit: nat)
    requires start <= limit <= |data|
    decreases limit - start
  {
    start == limit
    || (start + 8 <= limit
        && var size := FromBytes(data[start..start + 4]);
           size >= 8 && start + size <= limit && Plain(data, start + size, limit))
  }

  function Contents(data: seq<byte>, spans: seq<Span>): seq<Box>
    requires forall i | 0 <= i < |spans| :: spans[i].start <= spans[i].end <= |data|
  {
    if spans == [] then [] else [Box(spans[0].name, data[spans[0].start..spans[0].end])] + Contents(data, spans[1..])
  }

  /** Reading a plain range and printing what was found gives the bytes back. */
  lemma {:induction false} PrintWalked(data: seq<byte>, start: nat, limit: nat)
    requires start <= limit <= |data| && Plain(data, start, limit)
    ensures BoxesIn(data, start, limit).Ok?
    ensures var spans := BoxesIn(data, start, limit).value;
            (forall i | 0 <= i < |spans| :: spans[i].start <= spans[i].end <= |data|)
            && PrintAll(Contents(data, spans)) == data[start..limit]
    decreases limit - start
  {
    if start < limit {
      var size := FromBytes(data[start..start + 4]);
      PrintWalked(data, start + size, limit);
      var first, rest := Span(data[start + 4..start + 8], start + 8, start + size), BoxesIn(data, start + size, limit).value;
      assert BoxesIn(data, start, limit) == Ok([first] + rest);
      PrintedNext(data, start, size, limit, first, rest);
    }
  }

  lemma PrintedNext(data: seq<byte>, start: nat, size: nat, limit: nat, first: Span, rest: seq<Span>)
    requires start + 8 <= start + size <= limit <= |data| && size == FromBytes(data[start..start + 4])
    requires first == Span(data[start + 4..start + 8], start + 8, start + size)
    requires forall i | 0 <= i < |rest| :: rest[i].start <= rest[i].end <= |data|
    requires PrintAll(Contents(data, rest)) == data[start + size..limit]
    ensures forall i | 0 <= i < |[first] + rest| :: ([first] + rest)[i].start <= ([first] + rest)[i].end <= |data|
    ensures PrintAll(Contents(data, [first] + rest)) == data[start..limit]
  {
    hide BoxBytes, FromBytes, PrintAll, Contents;
    BoxBytesRead(data, start, size);
    ContentsNext(data, first, rest);
    SliceJoins(data, start, start + size, limit);
  }

  lemma ContentsNext(data: seq<byte>, first: Span, rest: seq<Span>)
    requires first.start <= first.end <= |data| && forall i | 0 <= i < |rest| :: rest[i].start <= rest[i].end <= |data|
    ensures forall i | 0 <= i < |[first] + rest| :: ([first] + rest)[i].start <= ([first] + rest)[i].end <= |data|
    ensures PrintAll(Contents(data, [first] + rest))
         == BoxBytes(Box(first.name, data[first.start..first.end])) + PrintAll(Contents(data, rest))
  {
    hide BoxBytes;
    var b, spans := Box(first.name, data[first.start..first.end]), [first] + rest;
    assert spans[1..] == rest;
    assert Contents(data, spans) == [b] + Contents(data, rest);
    assert ([b] + Contents(data, rest))[1..] == Contents(data, rest);
  }

  lemma SliceJoins(data: seq<byte>, a: nat, b: nat, c: nat)
    requires a <= b <= c <= |data|
    ensures data[a..c] == data[a..b] + data[b..c]
  {
  }

  lemma BoxBytesRead(data: seq<byte>, start: nat, size: nat)
    requires start + 8 <= start + size <= |data| && size == FromBytes(data[start..start + 4])
    ensures BoxBytes(Box(data[start + 4..start + 8], data[start + 8..start + size])) == data[start..start + size]
  {
    ToFromBytes(data[start..start + 4]);
    hide ToBytes, FromBytes;
    assert data[start..start + size] == data[start..start + 4] + data[start + 4..start + 8] + data[start + 8..start + size];
  }

  lemma {:induction false} SpansInside(data: seq<byte>, start: nat, limit: nat)
    requires start <= limit <= |data| && BoxesIn(data, start, limit).Ok?
    ensures forall i | 0 <= i < |BoxesIn(data, start, limit).value| ::
              BoxesIn(data, start, limit).value[i].start <= BoxesIn(data, start, limit).value[i].end <= |data|
  {
    AcceptedIsTiled(data, start, limit);
    var spans := BoxesIn(data, start, limit).value;
    forall i | 0 <= i < |spans| ensures spans[i].start <= spans[i].end <= |data| {
      TiledInside(data, start, limit, spans, i);
    }
  }

  function Found(data: seq<byte>, start: nat, limit: nat): seq<Box>
    requires start <= limit <= |data| && BoxesIn(data, start, limit).Ok?
  {
    SpansInside(data, start, limit);
    Contents(data, BoxesIn(data, start, limit).value)
  }

  /** The first box found and the others. */
  lemma FoundNext(data: seq<byte>, start: nat, limit: nat)
    requires start + 8 <= limit <= |data| && BoxesIn(data, start, limit).Ok?
    ensures var h := HeaderAt(data, start, limit);
      && h.Ok? && h.value.length <= h.value.size <= limit - start
      && (h.value.length == 8 || h.value.length == 16)
      && var first := Box(data[start + 4..start + 8], data[start + h.value.length..start + h.value.size]);
         if RunsToEnd(data, start) then h.value == Header(8, limit - start) && Found(data, start, limit) == [first]
         else
           && BoxesIn(data, start + h.value.size, limit).Ok?
           && Found(data, start, limit) == [first] + Found(data, start + h.value.size, limit)
  {
    var h := HeaderAt(data, start, limit).value;
    var span := Span(data[start + 4..start + 8], start + h.length, start + h.size);
    hide FromBytes;
    if RunsToEnd(data, start) {
      var first := Box(span.name, data[span.start..span.end]);
      assert BoxesIn(data, start, limit) == Ok([span]);
      assert [span][1..] == [] && [first] + [] == [first];
      assert Contents(data, [span]) == [first];
    } else {
      var rest := BoxesIn(data, start + h.size, limit).value;
      assert ([span] + rest)[1..] == rest;
    }
  }

  /** What is printed is no longer than what was read: long headers shrink, and a rest that is no box is left out. */
  lemma {:induction false} PrintedFits(data: seq<byte>, start: nat, limit: nat)
    requires start <= limit <= |data| && BoxesIn(data, start, limit).Ok?
    ensures |PrintAll(Found(data, start, limit))| <= limit - start
    decreases limit - start
  {
    hide BoxesIn, HeaderAt, RunsToEnd, Contents, Found;
    if start + 8 <= limit {
      FoundNext(data, start, limit);
      var h := HeaderAt(data, start, limit).value;
      var first := Box(data[start + 4..start + 8], data[start + h.length..start + h.size]);
      if RunsToEnd(data, start) {
        assert [first][1..] == [];
      } else {
        var rest := Found(data, start + h.size, limit);
        PrintedFits(data, start + h.size, limit);
        assert ([first] + rest)[1..] == rest;
      }
    } else {
      NothingFound(data, start, limit);
    }
  }

  lemma NothingFound(data: seq<byte>, start: nat, limit: nat)
    requires start <= limit <= |data| && start + 8 > limit
    ensures BoxesIn(data, start, limit).Ok? && Found(data, start, limit) == []
  {
  }

  /**
    Printing what was read from an accepted range gives its bytes back if and only if the range is plain:
    every size is written in four bytes, none is left open, and nothing is left over.
   */
  lemma PrintedIffPlain(data: seq<byte>, start: nat, limit: nat)
    requires start <= limit <= |data| && BoxesIn(data, start, limit).Ok?
    ensures PrintBoxes(Found(data, start, limit)) == Ok(data[start..limit]) <==> Plain(data, start, limit)
  {
    if Plain(data, start, limit) {
      PrintWalked(data, start, limit);
      PlainPrintable(data, start, limit);
      PrintBoxesOk(Found(data, start, limit));
    }
    if PrintBoxes(Found(data, start, limit)) == Ok(data[start..limit]) {
      PrintBoxesOk(Found(data, start, limit));
      PrintedIsPlain(data, start, limit);
    }
  }

  lemma {:induction false} PlainPrintable(data: seq<byte>, start: nat, limit: nat)
    requires start <= limit <= |data| && Plain(data, start, limit) && BoxesIn(data, start, limit).Ok?
    ensures forall b | b in Found(data, start, limit) :: Printable(b)
    decreases limit - start
  {
    hide BoxesIn, Contents, Found, FromBytes;
    if start < limit {
      FoundNext(data, start, limit);
      FourBytesFit(data[start..start + 4]);
      PlainPrintable(data, start + FromBytes(data[start..start + 4]), limit);
    } else {
      NothingFound(data, start, limit);
    }
  }

  lemma FourBytesFit(bytes: seq<byte>)
    requires |bytes| == 4
    ensures FromBytes(bytes) < SIZE_LIMIT
  {
    ToFromBytes(bytes);
    FourBytes();
  }

  lemma {:induction false} PrintedIsPlain(data: seq<byte>, start: nat, limit: nat)
    requires start <= limit <= |data| && BoxesIn(data, start, limit).Ok?
    requires forall b | b in Found(data, start, limit) :: Printable(b)
    requires PrintAll(Found(data, start, limit)) == data[start..limit]
    ensures Plain(data, start, limit)
    decreases limit - start
  {
    hide BoxesIn, Contents, Found, FromBytes, BoxBytes;
    if start + 8 > limit {
      NothingFound(data, start, limit);
    } else {
      FoundNext(data, start, limit);
      var h := HeaderAt(data, start, limit).value;
      var first := Box(data[start + 4..start + 8], data[start + h.length..start + h.size]);
      var found := Found(data, start, limit);
      assert first in found && PrintAll(found) == BoxBytes(first) + PrintAll(found[1..]);
      BoxLength(first);
      if RunsToEnd(data, start) {
        assert found[1..] == [];
        StartsWithSize(data, start, limit, first, []);
      } else {
        var rest := Found(data, start + h.size, limit);
        assert found[1..] == rest;
        PrintedFits(data, start + h.size, limit);
        assert h.length == 8;
        SplitPrinted(data, start, start + h.size, limit, BoxBytes(first), PrintAll(rest));
        PrintedIsPlain(data, start + h.size, limit);
      }
    }
  }

  lemma BoxLength(b: Box)
    requires |b.name| == 4
    ensures |BoxBytes(b)| == 8 + |b.payload|
  {
  }

  lemma SplitPrinted(data: seq<byte>, a: nat, b: nat, c: nat, s: seq<byte>, t: seq<byte>)
    requires a <= b <= c <= |data| && |s| == b - a && data[a..c] == s + t
    ensures data[b..c] == t
  {
    assert data[b..c] == data[a..c][b - a..];
  }

  /** A printed box starts with its size, which is never zero. */
  lemma StartsWithSize(data: seq<byte>, start: nat, limit: nat, b: Box, rest: seq<byte>)
    requires start + 8 <= limit <= |data| && Printable(b) && data[start..limit] == BoxBytes(b) + rest
    ensures !RunsToEnd(data, start)
  {
    assert data[start..start + 4] == data[start..limit][..4] == ToBytes(8 + |b.payload|, 4);
    FromToBytes(8 + |b.payload|, 4);
    FourBytes();
    hide ToBytes, FromBytes;
  }
}
