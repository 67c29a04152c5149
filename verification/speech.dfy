/** Probing m4a audio: brands and duration (ISO/IEC 14496-12, sections 4.3 and 8.2.2), and the audio fixture. */
module Speech {
  import opened Bytes
  import opened Boxes
  import opened Rounding

  const ASR_MAX_SIZE_BYTES: nat := 5_242_880
  const ASR_MAX_DURATION_MS: int := 30_000
  const ASR_MIN_DURATION_MS: int := 1

  const FTYP: seq<byte> := [0x66, 0x74, 0x79, 0x70]
  const MOOV: seq<byte> := [0x6D, 0x6F, 0x6F, 0x76]
  const MVHD: seq<byte> := [0x6D, 0x76, 0x68, 0x64]
  const MDAT: seq<byte> := [0x6D, 0x64, 0x61, 0x74]
  const M4A_BRAND: seq<byte> := [0x4D, 0x34, 0x41, 0x20]
  const M4B_BRAND: seq<byte> := [0x4D, 0x34, 0x42, 0x20]
  const MP41_BRAND: seq<byte> := [0x6D, 0x70, 0x34, 0x31]
  const MP42_BRAND: seq<byte> := [0x6D, 0x70, 0x34, 0x32]
  const ISOM_BRAND: seq<byte> := [0x69, 0x73, 0x6F, 0x6D]
  const ISO2_BRAND: seq<byte> := [0x69, 0x73, 0x6F, 0x32]
  const ALLOWED_BRANDS: set<seq<byte>> := {M4A_BRAND, M4B_BRAND, MP41_BRAND, MP42_BRAND, ISOM_BRAND, ISO2_BRAND}

  datatype Inspection = Inspection(sizeBytes: nat, durationMs: int, brands: set<seq<byte>>)

  /** The first box of that name. */
  function FirstNamed(spans: seq<Span>, name: seq<byte>): (found: seq<Span>)
    ensures |found| <= 1 && (found != [] ==> found[0] in spans && found[0].name == name)
  {
    if spans == [] then [] else if spans[0].name == name then [spans[0]] else FirstNamed(spans[1..], name)
  }

  /** The compatible brands from offset on, four bytes each. */
  function BrandsFrom(body: seq<byte>, offset: nat, end: nat): set<seq<byte>>
    requires end <= |body|
    decreases end - offset
  {
    if offset + 4 > end then {} else {body[offset..offset + 4]} + BrandsFrom(body, offset + 4, end)
  }

  method CollectBrands(body: seq<byte>, start: nat, end: nat) returns (brands: set<seq<byte>>)
    requires start + 8 <= end <= |body|
    ensures brands == {body[start..start + 4]} + BrandsFrom(body, start + 8, end)
  {
    brands := {body[start..start + 4]};
    var offset := start + 8;
    while offset + 4 <= end
      invariant offset >= start + 8
      invariant {body[start..start + 4]} + BrandsFrom(body, start + 8, end) == brands + BrandsFrom(body, offset, end)
      decreases end - offset
    {
      brands := brands + {body[offset..offset + 4]};
      offset := offset + 4;
    }
  }

  method FtypBrands(body: seq<byte>) returns (result: Result<set<seq<byte>>>)
    ensures result == BrandsOf(body)
  {
    hide BoxesIn, BrandsFrom, Tiled;
    var spans := IterBoxes(body, 0, |body|);
    if spans.Invalid? {
      return Invalid(spans.error);
    }
    var i := 0;
    while i < |spans.value|
      invariant 0 <= i <= |spans.value|
      invariant FirstNamed(spans.value, FTYP) == FirstNamed(spans.value[i..], FTYP)
    {
      var s := spans.value[i];
      assert spans.value[i..][0] == s && spans.value[i..][1..] == spans.value[i + 1..];
      if s.name == FTYP {
        assert FirstNamed(spans.value, FTYP) == [s];
        FoundInside(body, 0, |body|, FTYP);
        if s.end - s.start < 8 {
          return Invalid(FtypTruncated);
        }
        var brands := CollectBrands(body, s.start, s.end);
        return Ok(brands);
      }
      i := i + 1;
    }
    assert spans.value[i..] == [];
    return Invalid(FtypMissing);
  }

  function BrandsOf(body: seq<byte>): Result<set<seq<byte>>> {
    var spans := BoxesIn(body, 0, |body|);
    if spans.Invalid? then Invalid(spans.error)
    else
      var found := FirstNamed(spans.value, FTYP);
      if found == [] then Invalid(FtypMissing)
      else
        FoundInside(body, 0, |body|, FTYP);
        var s := found[0];
        if s.end - s.start < 8 then Invalid(FtypTruncated)
        else Ok({body[s.start..s.start + 4]} + BrandsFrom(body, s.start + 8, s.end))
  }

  lemma FoundInside(body: seq<byte>, start: nat, limit: nat, name: seq<byte>)
    requires start <= limit <= |body| && BoxesIn(body, start, limit).Ok?
    ensures var found := FirstNamed(BoxesIn(body, start, limit).value, name);
            found != [] ==> start < found[0].start <= found[0].end <= limit
  {
    var spans := BoxesIn(body, start, limit).value;
    if FirstNamed(spans, name) != [] {
      var i :| 0 <= i < |spans| && spans[i] == FirstNamed(spans, name)[0];
      AcceptedIsTiled(body, start, limit);
      TiledInside(body, start, limit, spans, i);
    }
  }

  function ReadMvhd(payload: seq<byte>): Result<int> {
    if |payload| < 20 then Invalid(MvhdTruncated)
    else if payload[0] == 1 && |payload| < 32 then Invalid(MvhdTruncated)
    else if payload[0] > 1 then Invalid(MvhdUnsupported)
    else
      var timescale := if payload[0] == 1 then FromBytes(payload[20..24]) else FromBytes(payload[12..16]);
      var duration := if payload[0] == 1 then FromBytes(payload[24..32]) else FromBytes(payload[16..20]);
      if timescale <= 0 then Invalid(TimescaleInvalid) else Ok(duration * 1000 / timescale)
  }

  function MvhdDuration(body: seq<byte>): Result<int> {
    var spans := BoxesIn(body, 0, |body|);
    if spans.Invalid? then Invalid(spans.error)
    else
      var moov := FirstNamed(spans.value, MOOV);
      if moov == [] then Invalid(MoovMissing)
      else
        FoundInside(body, 0, |body|, MOOV);
        var inner := BoxesIn(body, moov[0].start, moov[0].end);
        if inner.Invalid? then Invalid(inner.error)
        else
          var mvhd := FirstNamed(inner.value, MVHD);
          if mvhd == [] then Invalid(MvhdMissing)
          else
            FoundInside(body, moov[0].start, moov[0].end, MVHD);
            ReadMvhd(body[mvhd[0].start..mvhd[0].end])
  }

  function Inspect(body: seq<byte>): Result<Inspection> {
    if body == [] then Invalid(AudioEmpty)
    else if |body| > ASR_MAX_SIZE_BYTES then Invalid(AudioTooLarge)
    else if |body| < 16 || body[4..8] != FTYP then Invalid(NotM4a)
    else
      var brands := BrandsOf(body);
      if brands.Invalid? then Invalid(brands.error)
      else if brands.value * ALLOWED_BRANDS == {} then Invalid(NotM4a)
      else
        var duration := MvhdDuration(body);
        if duration.Invalid? then Invalid(duration.error)
        else if duration.value < ASR_MIN_DURATION_MS then Invalid(TooShort)
        else if duration.value > ASR_MAX_DURATION_MS then Invalid(TooLong)
        else Ok(Inspection(|body|, duration.value, brands.value))
  }

  // ---------- the fixture ----------

  function Overwrite(s: seq<byte>, at: nat, field: seq<byte>): (r: seq<byte>)
    requires at + |field| <= |s|
    ensures |r| == |s|
  {
    s[..at] + field + s[at + |field|..]
  }

  function MvhdPayload(timescale: nat, units: nat): (s: seq<byte>)
    ensures |s| == 100
  {
    var a := Overwrite(seq(100, _ => 0), 12, ToBytes(timescale, 4));
    var b := Overwrite(a, 16, ToBytes(units, 4));
    var c := Overwrite(b, 20, ToBytes(0x00010000, 4));
    var d := Overwrite(c, 24, ToBytes(0x0100, 2));
    var e := Overwrite(d, 36, ToBytes(0x00010000, 4));
    var f := Overwrite(e, 52, ToBytes(0x00010000, 4));
    var g := Overwrite(f, 68, ToBytes(0x40000000, 4));
    Overwrite(g, 96, ToBytes(2, 4))
  }

  function FtypBox(): Box {
    Box(FTYP, M4A_BRAND + [0, 0, 0, 0] + M4A_BRAND + MP42_BRAND + ISOM_BRAND)
  }

  function MoovBox(timescale: nat, units: nat): Box {
    Box(MOOV, PrintAll([Box(MVHD, MvhdPayload(timescale, units))]))
  }

  function MdatBox(pad: nat): Box {
    Box(MDAT, seq(pad, _ => 0))
  }

  function FixtureBoxes(timescale: nat, units: nat, pad: nat): seq<Box> {
    [FtypBox(), MoovBox(timescale, units), MdatBox(pad)]
  }

  function Units(durationMs: int, timescale: int): int {
    RoundHalfEven(durationMs * timescale, 1000)
  }

  /** Writing the fixture fails where a field would not fit its four bytes. */
  predicate Fits(durationMs: int, timescale: int, pad: int) {
    && 0 < timescale < SIZE_LIMIT && 0 <= Units(durationMs, timescale) < SIZE_LIMIT
    && 0 <= pad && 8 + pad < SIZE_LIMIT
  }

  function Fixture(durationMs: int, timescale: int, pad: int): Result<seq<byte>> {
    if timescale <= 0 || pad < 0 then Invalid(BadFixture)
    else if !Fits(durationMs, timescale, pad) then Invalid(Overflow)
    else Ok(PrintAll(FixtureBoxes(timescale, Units(durationMs, timescale), pad)))
  }

  method WriteField(buffer: array<byte>, at: nat, field: seq<byte>)
    requires at + |field| <= buffer.Length
    modifies buffer
    ensures buffer[..] == Overwrite(old(buffer[..]), at, field)
  {
    var i := 0;
    while i < |field|
      invariant 0 <= i <= |field|
      invariant forall k | 0 <= k < buffer.Length ::
                  buffer[k] == if at <= k < at + i then field[k - at] else old(buffer[..])[k]
    {
      buffer[at + i] := field[i];
      i := i + 1;
    }
  }

  method M4aFixtureBytes(durationMs: int, timescale: int, pad: int) returns (result: Result<seq<byte>>)
    ensures result == Fixture(durationMs, timescale, pad)
  {
    if timescale <= 0 || pad < 0 {
      return Invalid(BadFixture);
    }
    var units := RoundHalfEven(durationMs * timescale, 1000);
    if timescale >= SIZE_LIMIT || units < 0 || units >= SIZE_LIMIT {
      return Invalid(Overflow);
    }
    hide Fits, ToBytes, PrintAll;
    var mvhd := new byte[100](_ => 0);
    assert mvhd[..] == seq(100, _ => 0);
    WriteField(mvhd, 12, ToBytes(timescale, 4));
    WriteField(mvhd, 16, ToBytes(units, 4));
    WriteField(mvhd, 20, ToBytes(0x00010000, 4));
    WriteField(mvhd, 24, ToBytes(0x0100, 2));
    WriteField(mvhd, 36, ToBytes(0x00010000, 4));
    WriteField(mvhd, 52, ToBytes(0x00010000, 4));
    WriteField(mvhd, 68, ToBytes(0x40000000, 4));
    WriteField(mvhd, 96, ToBytes(2, 4));
    assert mvhd[..] == MvhdPayload(timescale, units);
    var inner := PrintBox(Box(MVHD, mvhd[..]));
    var moov := PrintBox(Box(MOOV, inner.value));
    var ftyp := PrintBox(FtypBox());
    var mdat := PrintBox(MdatBox(pad));
    if mdat.Invalid? {
      return mdat;
    }
    BoxesTogether(timescale, units, pad);
    return Ok(ftyp.value + moov.value + mdat.value);
  }

  lemma BoxesTogether(timescale: nat, units: nat, pad: nat)
    requires timescale < SIZE_LIMIT && units < SIZE_LIMIT
    ensures MoovBox(timescale, units) == Box(MOOV, BoxBytes(Box(MVHD, MvhdPayload(timescale, units))))
    ensures PrintAll(FixtureBoxes(timescale, units, pad))
         == BoxBytes(FtypBox()) + BoxBytes(MoovBox(timescale, units)) + BoxBytes(MdatBox(pad))
  {
    hide BoxBytes, MvhdPayload;
    OneBox(Box(MVHD, MvhdPayload(timescale, units)), 0);
    ThreeBoxes(FtypBox(), MoovBox(timescale, units), MdatBox(pad));
  }

  // ---------- duration through the container ----------

  lemma OverwriteRead(s: seq<byte>, at: nat, field: seq<byte>, lo: nat, hi: nat)
    requires at + |field| <= |s| && lo <= hi <= |s|
    ensures lo == at && hi == at + |field| ==> Overwrite(s, at, field)[lo..hi] == field
    ensures hi <= at || at + |field| <= lo ==> Overwrite(s, at, field)[lo..hi] == s[lo..hi]
  {
    var r := Overwrite(s, at, field);
    assert forall k | 0 <= k < |s| :: r[k] == if at <= k < at + |field| then field[k - at] else s[k];
    hide Overwrite;
  }

  lemma PayloadFields(timescale: nat, units: nat)
    ensures MvhdPayload(timescale, units)[12..16] == ToBytes(timescale, 4)
    ensures MvhdPayload(timescale, units)[16..20] == ToBytes(units, 4)
    ensures MvhdPayload(timescale, units)[0] == 0
  {
    hide ToBytes, Overwrite;
    var z: seq<byte> := seq(100, _ => 0);
    var a := Overwrite(z, 12, ToBytes(timescale, 4));
    var b := Overwrite(a, 16, ToBytes(units, 4));
    var c := Overwrite(b, 20, ToBytes(0x00010000, 4));
    var d := Overwrite(c, 24, ToBytes(0x0100, 2));
    var e := Overwrite(d, 36, ToBytes(0x00010000, 4));
    var f := Overwrite(e, 52, ToBytes(0x00010000, 4));
    var g := Overwrite(f, 68, ToBytes(0x40000000, 4));
    Kept(g, 96, ToBytes(2, 4));
    Kept(f, 68, ToBytes(0x40000000, 4));
    Kept(e, 52, ToBytes(0x00010000, 4));
    Kept(d, 36, ToBytes(0x00010000, 4));
    Kept(c, 24, ToBytes(0x0100, 2));
    Kept(b, 20, ToBytes(0x00010000, 4));
    OverwriteRead(a, 16, ToBytes(units, 4), 16, 20);
    OverwriteRead(a, 16, ToBytes(units, 4), 12, 16);
    OverwriteRead(a, 16, ToBytes(units, 4), 0, 1);
    OverwriteRead(z, 12, ToBytes(timescale, 4), 12, 16);
    OverwriteRead(z, 12, ToBytes(timescale, 4), 0, 1);
    assert MvhdPayload(timescale, units)[0..1] == z[0..1];
    assert MvhdPayload(timescale, units)[0..1][0] == MvhdPayload(timescale, units)[0];
  }

  lemma Kept(s: seq<byte>, at: nat, field: seq<byte>)
    requires 20 <= at && at + |field| <= |s|
    ensures Overwrite(s, at, field)[12..16] == s[12..16] && Overwrite(s, at, field)[16..20] == s[16..20]
    ensures Overwrite(s, at, field)[0..1] == s[0..1]
  {
    OverwriteRead(s, at, field, 12, 16);
    OverwriteRead(s, at, field, 16, 20);
    OverwriteRead(s, at, field, 0, 1);
  }

  lemma PayloadDuration(timescale: nat, units: nat)
    requires 0 < timescale < SIZE_LIMIT && units < SIZE_LIMIT
    ensures ReadMvhd(MvhdPayload(timescale, units)) == Ok(units * 1000 / timescale)
  {
    PayloadFields(timescale, units);
    FourBytes();
    FromToBytes(timescale, 4);
    FromToBytes(units, 4);
  }

  lemma ThreeBoxes(a: Box, b: Box, c: Box)
    ensures PrintAll([a, b, c]) == BoxBytes(a) + BoxBytes(b) + BoxBytes(c)
    ensures var p, q, r := |a.payload|, |b.payload|, |c.payload|;
            Layout([a, b, c], 0) == [Span(a.name, 8, 8 + p), Span(b.name, 16 + p, 16 + p + q), Span(c.name, 24 + p + q, 24 + p + q + r)]
  {
    hide BoxBytes;
    assert [a, b, c][1..] == [b, c] && [b, c][1..] == [c];
    OneBox(c, 16 + |a.payload| + |b.payload|);
    assert PrintAll([b, c]) == BoxBytes(b) + BoxBytes(c);
  }

  lemma OneBox(b: Box, offset: nat)
    ensures PrintAll([b]) == BoxBytes(b)
    ensures Layout([b], offset) == [Span(b.name, offset + 8, offset + 8 + |b.payload|)]
  {
    hide BoxBytes;
    assert [b][1..] == [];
    assert BoxBytes(b) + [] == BoxBytes(b);
  }

  lemma MoovPayload(timescale: nat, units: nat)
    ensures MoovBox(timescale, units).payload == BoxBytes(Box(MVHD, MvhdPayload(timescale, units)))
    ensures |MoovBox(timescale, units).payload| == 108
  {
    OneBox(Box(MVHD, MvhdPayload(timescale, units)), 0);
  }

  lemma ThreeBoxBody(a: Box, b: Box, c: Box)
    requires Printable(a) && Printable(b) && Printable(c)
    ensures var body, p, q, r := PrintAll([a, b, c]), |a.payload|, |b.payload|, |c.payload|;
            && |body| == 24 + p + q + r
            && BoxesIn(body, 0, |body|)
               == Ok([Span(a.name, 8, 8 + p), Span(b.name, 16 + p, 16 + p + q), Span(c.name, 24 + p + q, 24 + p + q + r)])
            && body[4..8] == a.name && body[8..8 + p] == a.payload && body[16 + p..16 + p + q] == b.payload
  {
    hide BoxesIn, Layout, PrintAll;
    var boxes := [a, b, c];
    var body := PrintAll(boxes);
    ThreeBoxes(a, b, c);
    WalkPrinted([], boxes, []);
    assert [] + body == body && body + [] == body;
    BodyParts(a, b, c);
  }

  lemma FixtureLayout(timescale: nat, units: nat, pad: nat)
    requires 8 + pad < SIZE_LIMIT
    ensures var body := PrintAll(FixtureBoxes(timescale, units, pad));
            && |body| == 152 + pad
            && BoxesIn(body, 0, |body|) == Ok([Span(FTYP, 8, 28), Span(MOOV, 36, 144), Span(MDAT, 152, 152 + pad)])
            && body[4..8] == FTYP && body[8..28] == FtypBox().payload && body[36..144] == MoovBox(timescale, units).payload
  {
    MoovPayload(timescale, units);
    assert |FtypBox().payload| == 20 && |MdatBox(pad).payload| == pad;
    hide BoxesIn, PrintAll, MvhdPayload, BoxBytes;
    ThreeBoxBody(FtypBox(), MoovBox(timescale, units), MdatBox(pad));
  }

  lemma BodyParts(a: Box, b: Box, c: Box)
    requires |a.name| == |b.name| == 4
    ensures var body, n, m := BoxBytes(a) + BoxBytes(b) + BoxBytes(c), 8 + |a.payload|, 8 + |b.payload|;
            && |body| >= n + m
            && body[4..8] == a.name && body[8..n] == a.payload && body[n + 8..n + m] == b.payload
  {
    BoxParts(a);
    BoxParts(b);
    hide BoxBytes;
    var body, n, m := BoxBytes(a) + BoxBytes(b) + BoxBytes(c), 8 + |a.payload|, 8 + |b.payload|;
    Thirds(BoxBytes(a), BoxBytes(b), BoxBytes(c));
    SliceOfSlice(body, 0, n, 4, 8);
    SliceOfSlice(body, 0, n, 8, n);
    SliceOfSlice(body, n, n + m, 8, m);
  }

  lemma BoxParts(b: Box)
    requires |b.name| == 4
    ensures var n := 8 + |b.payload|;
            |BoxBytes(b)| == n && BoxBytes(b)[4..8] == b.name && BoxBytes(b)[8..n] == b.payload
  {
  }

  lemma Thirds(x: seq<byte>, y: seq<byte>, z: seq<byte>)
    ensures var s := x + y + z; s[0..|x|] == x && s[|x|..|x| + |y|] == y
  {
    var s := x + y + z;
    assert s[0..|x|] == x;
    assert s[|x|..|x| + |y|] == y;
  }

  lemma SliceOfSlice(s: seq<byte>, a: nat, b: nat, i: nat, j: nat)
    requires a <= b <= |s| && i <= j <= b - a
    ensures s[a..b][i..j] == s[a + i..a + j]
  {
    var p, q := s[a..b][i..j], s[a + i..a + j];
    assert |p| == |q|;
    forall k | 0 <= k < |p| ensures p[k] == q[k] {
      assert s[a..b][i + k] == s[a + (i + k)];
    }
  }

  lemma FixtureMvhd(timescale: nat, units: nat, pad: nat)
    requires 0 < timescale < SIZE_LIMIT && units < SIZE_LIMIT && 8 + pad < SIZE_LIMIT
    ensures MvhdDuration(PrintAll(FixtureBoxes(timescale, units, pad))) == Ok(units * 1000 / timescale)
  {
    var body := PrintAll(FixtureBoxes(timescale, units, pad));
    FixtureLayout(timescale, units, pad);
    MoovPayload(timescale, units);
    var inner := [Box(MVHD, MvhdPayload(timescale, units))];
    assert body == body[..36] + PrintAll(inner) + body[144..];
    assert body[..36] + PrintAll(inner) == body[..144];
    WalkPrinted(body[..36], inner, body[144..]);
    LayoutPayload(body[..36], inner, body[144..], 0);
    PayloadDuration(timescale, units);
    hide BoxesIn, PrintAll, MvhdPayload, ToBytes, ReadMvhd, BoxBytes;
    assert inner[1..] == [];
    assert Layout(inner, 36) == [Span(MVHD, 44, 144)];
    FirstOfThree();
  }

  lemma FirstOfThree()
    ensures forall a: Span, b: Span, c: Span :: a.name == FTYP && b.name == MOOV ==>
              FirstNamed([a, b, c], MOOV) == [b] && FirstNamed([a, b, c], FTYP) == [a]
    ensures forall m: Span :: m.name == MVHD ==> FirstNamed([m], MVHD) == [m]
  {
    forall a: Span, b: Span, c: Span | a.name == FTYP && b.name == MOOV
      ensures FirstNamed([a, b, c], MOOV) == [b]
    {
      assert FTYP[0] != MOOV[0];
      assert [a, b, c][1..][0] == b;
    }
  }

  lemma FixtureBrands(timescale: nat, units: nat, pad: nat)
    requires 8 + pad < SIZE_LIMIT
    ensures BrandsOf(PrintAll(FixtureBoxes(timescale, units, pad))) == Ok({M4A_BRAND, MP42_BRAND, ISOM_BRAND})
  {
    var body := PrintAll(FixtureBoxes(timescale, units, pad));
    FixtureLayout(timescale, units, pad);
    FirstOfThree();
    FtypPayload(body[8..28]);
    BrandsFound(body);
  }

  lemma BrandsFound(body: seq<byte>)
    requires |body| >= 28 && BoxesIn(body, 0, |body|).Ok?
    requires FirstNamed(BoxesIn(body, 0, |body|).value, FTYP) == [Span(FTYP, 8, 28)]
    requires var p := body[8..28];
             p[0..4] == M4A_BRAND && p[8..12] == M4A_BRAND && p[12..16] == MP42_BRAND && p[16..20] == ISOM_BRAND
    ensures BrandsOf(body) == Ok({M4A_BRAND, MP42_BRAND, ISOM_BRAND})
  {
    hide BoxesIn, M4A_BRAND, MP42_BRAND, ISOM_BRAND, FirstNamed, BrandsFrom;
    SliceOfSlice(body, 8, 28, 0, 4);
    SliceOfSlice(body, 8, 28, 8, 12);
    SliceOfSlice(body, 8, 28, 12, 16);
    SliceOfSlice(body, 8, 28, 16, 20);
    FourBrands(body, M4A_BRAND, MP42_BRAND, ISOM_BRAND);
  }

  lemma FtypPayload(p: seq<byte>)
    requires p == FtypBox().payload
    ensures |p| == 20 && p[0..4] == M4A_BRAND && p[8..12] == M4A_BRAND && p[12..16] == MP42_BRAND && p[16..20] == ISOM_BRAND
  {
  }

  lemma FourBrands(body: seq<byte>, a: seq<byte>, b: seq<byte>, c: seq<byte>)
    requires |body| >= 28 && body[16..20] == a && body[20..24] == b && body[24..28] == c
    ensures {a} + BrandsFrom(body, 16, 28) == {a, b, c}
  {
    assert BrandsFrom(body, 24, 28) == {c} + BrandsFrom(body, 28, 28);
    assert BrandsFrom(body, 20, 28) == {b} + BrandsFrom(body, 24, 28);
    assert BrandsFrom(body, 16, 28) == {a} + BrandsFrom(body, 20, 28);
    hide BrandsFrom;
    assert BrandsFrom(body, 28, 28) == {} by {
      NoBrands(body);
    }
  }

  lemma NoBrands(body: seq<byte>)
    requires |body| >= 28
    ensures BrandsFrom(body, 28, 28) == {}
  {
  }

  /** The duration read back: what rounding to whole units of the timescale and down to milliseconds leaves. */
  function ReadBack(durationMs: int, timescale: int): int
    requires timescale > 0
  {
    Units(durationMs, timescale) * 1000 / timescale
  }

  /**
    A timescale above 500 loses at most one millisecond, and none exactly when rounding to units did not
    go down; a timescale of 1000 loses nothing.
   */
  lemma DurationLoss(durationMs: int, timescale: int)
    requires timescale > 500
    ensures ReadBack(durationMs, timescale) == durationMs || ReadBack(durationMs, timescale) == durationMs - 1
    ensures ReadBack(durationMs, timescale) == durationMs <==> Units(durationMs, timescale) * 1000 >= durationMs * timescale
    ensures timescale == 1000 ==> ReadBack(durationMs, timescale) == durationMs
  {
    var exact := durationMs * timescale;
    var scaled := Units(durationMs, timescale) * 1000;
    assert -500 <= scaled - exact <= 500;
    var q, r := scaled / timescale, scaled % timescale;
    assert scaled == timescale * q + r;
    if scaled >= exact {
      Quotient(timescale, durationMs, q, scaled - exact - r);
    } else {
      Quotient(timescale, durationMs - 1, q, scaled - exact + timescale - r);
    }
  }

  lemma Quotient(d: int, a: int, b: int, gap: int)
    requires d > 0 && -d < gap < d && d * b == d * a + gap
    ensures a == b
  {
    if b > a {
      Steps(d, b, a);
    } else if a > b {
      Steps(d, a, b);
    }
  }

  /** Whatever the padding, the inspector accepts the fixture with the duration above and its three brands. */
  lemma FixtureInspected(durationMs: int, timescale: int, pad: int)
    requires Fits(durationMs, timescale, pad) && 152 + pad <= ASR_MAX_SIZE_BYTES
    ensures var r := Inspect(Fixture(durationMs, timescale, pad).value);
            var d := ReadBack(durationMs, timescale);
            && (ASR_MIN_DURATION_MS <= d <= ASR_MAX_DURATION_MS ==>
                  r == Ok(Inspection(152 + pad, d, {M4A_BRAND, MP42_BRAND, ISOM_BRAND})))
            && (d < ASR_MIN_DURATION_MS ==> r == Invalid(TooShort))
            && (d > ASR_MAX_DURATION_MS ==> r == Invalid(TooLong))
  {
    var units := Units(durationMs, timescale);
    FixtureLayout(timescale, units, pad);
    FixtureMvhd(timescale, units, pad);
    FixtureBrands(timescale, units, pad);
    hide BoxesIn, PrintAll, MvhdDuration, BrandsOf, Units;
    assert M4A_BRAND in {M4A_BRAND, MP42_BRAND, ISOM_BRAND} * ALLOWED_BRANDS;
  }
}
