/**
  Every way to write a box that ISO/IEC 14496-12 knows, section 4.2: a size of four bytes, a size of eight bytes
  behind the number one, or for the last box a zero.
 */
module BoxCodings {
  import opened Bytes
  import opened Boxes

  datatype Coding = Short | Long | ToEnd

  datatype Coded = Coded(box: Box, coding: Coding)
  {
    function Header(): nat {
      if coding == Long then 16 else 8
    }

    function Size(): nat {
      Header() + |box.payload|
    }

    /** The size fits its field. */
    predicate Fits() {
      |box.name| == 4 && (coding == Short ==> Size() < SIZE_LIMIT) && (coding == Long ==> Size() < SIZE_LIMIT * SIZE_LIMIT)
    }

    function Written(): seq<byte> {
      match coding
      case Short => ToBytes(Size(), 4) + box.name + box.payload
      case Long => ToBytes(1, 4) + box.name + ToBytes(Size(), 8) + box.payload
      case ToEnd => ToBytes(0, 4) + box.name + box.payload
    }
  }

  function WriteAll(boxes: seq<Coded>): seq<byte> {
    if boxes == [] then [] else boxes[0].Written() + WriteAll(boxes[1..])
  }

  /** Where the payloads are when the boxes are written from offset on. */
  function Places(boxes: seq<Coded>, offset: nat): seq<Span> {
    if boxes == [] then []
    else
      [Span(boxes[0].box.name, offset + boxes[0].Header(), offset + boxes[0].Size())] + Places(boxes[1..], offset + boxes[0].Size())
  }

  /** Boxes and what is left over behind them: less than a header, and nothing behind a box that runs to the end. */
  predicate Writable(boxes: seq<Coded>, rest: seq<byte>) {
    && |rest| < 8
    && (forall i | 0 <= i < |boxes| :: boxes[i].Fits())
    && (forall i | 0 <= i < |boxes| && boxes[i].coding == ToEnd :: i == |boxes| - 1 && rest == [])
  }

  lemma EightBytes()
    ensures Pow256(8) == SIZE_LIMIT * SIZE_LIMIT
  {
    FourBytes();
    hide Pow256;
    NextPower(4);
    NextPower(5);
    NextPower(6);
    NextPower(7);
  }

  lemma NextPower(k: nat)
    ensures Pow256(k + 1) == 256 * Pow256(k)
  {
  }

  /** The parts of a written box where it lies. */
  lemma PartsOf(data: seq<byte>, c: Coded, offset: nat)
    requires c.Fits() && offset + c.Size() <= |data| && data[offset..offset + c.Size()] == c.Written()
    ensures data[offset..offset + 4] == ToBytes(if c.coding == Short then c.Size() else if c.coding == Long then 1 else 0, 4)
    ensures data[offset + 4..offset + 8] == c.box.name
    ensures c.coding == Long ==> data[offset + 8..offset + 16] == ToBytes(c.Size(), 8)
    ensures data[offset + c.Header()..offset + c.Size()] == c.box.payload
  {
    hide ToBytes, Coded.Written;
    WrittenParts(c);
    SliceOf(data, offset, offset + c.Size(), 0, 4);
    SliceOf(data, offset, offset + c.Size(), 4, 8);
    if c.coding == Long {
      SliceOf(data, offset, offset + c.Size(), 8, 16);
    }
    SliceOf(data, offset, offset + c.Size(), c.Header(), c.Size());
  }

  lemma SliceOf(data: seq<byte>, a: nat, b: nat, i: nat, j: nat)
    requires a <= b <= |data| && i <= j <= b - a
    ensures data[a + i..a + j] == data[a..b][i..j]
  {
    forall k | 0 <= k < j - i ensures data[a + i..a + j][k] == data[a..b][i..j][k] {
      assert data[a..b][i + k] == data[a + (i + k)];
    }
  }

  lemma WrittenParts(c: Coded)
    requires |c.box.name| == 4
    ensures |c.Written()| == c.Size()
    ensures c.Written()[0..4] == ToBytes(if c.coding == Short then c.Size() else if c.coding == Long then 1 else 0, 4)
    ensures c.Written()[4..8] == c.box.name && c.Written()[c.Header()..c.Size()] == c.box.payload
    ensures c.coding == Long ==> c.Written()[8..16] == ToBytes(c.Size(), 8)
  {
    hide ToBytes;
  }

  lemma HeaderOfWritten(data: seq<byte>, c: Coded, offset: nat, limit: nat)
    requires c.Fits() && offset + c.Size() <= limit <= |data| && data[offset..offset + c.Size()] == c.Written()
    requires c.coding == ToEnd ==> offset + c.Size() == limit
    ensures HeaderAt(data, offset, limit) == Ok(Header(c.Header(), c.Size()))
    ensures RunsToEnd(data, offset) <==> c.coding == ToEnd
    ensures data[offset + 4..offset + 8] == c.box.name
  {
    PartsOf(data, c, offset);
    FourBytes();
    EightBytes();
    FromToBytes(c.Size(), 4);
    FromToBytes(c.Size(), 8);
    FromToBytes(0, 4);
    FromToBytes(1, 4);
    hide ToBytes, FromBytes, Pow256;
  }

  lemma Cut(data: seq<byte>, offset: nat, limit: nat, first: seq<byte>, rest: seq<byte>)
    requires offset <= limit <= |data| && data[offset..limit] == first + rest
    ensures offset + |first| <= limit
    ensures data[offset..offset + |first|] == first && data[offset + |first|..limit] == rest
  {
    var whole := data[offset..limit];
    assert |whole| == |first| + |rest|;
    assert whole[..|first|] == first && whole[|first|..] == rest;
    assert data[offset..offset + |first|] == whole[..|first|] && data[offset + |first|..limit] == whole[|first|..];
  }

  lemma TailWritable(boxes: seq<Coded>, rest: seq<byte>)
    requires boxes != [] && Writable(boxes, rest)
    ensures boxes[0].Fits() && (if boxes[0].coding == ToEnd then boxes[1..] == [] && rest == [] else Writable(boxes[1..], rest))
  {
    assert forall i | 0 <= i < |boxes| - 1 :: boxes[1..][i] == boxes[i + 1];
  }

  /** The walker finds every box that was written, in whichever way, at its place. */
  lemma {:induction false} WalkWritten(data: seq<byte>, offset: nat, limit: nat, boxes: seq<Coded>, rest: seq<byte>)
    requires offset <= limit <= |data| && Writable(boxes, rest) && data[offset..limit] == WriteAll(boxes) + rest
    ensures BoxesIn(data, offset, limit) == Ok(Places(boxes, offset))
    decreases |boxes|
  {
    hide HeaderAt, FromBytes, ToBytes, RunsToEnd, Writable, WriteAll, Places, BoxesIn, Coded.Fits, Coded.Written;
    if boxes == [] {
      WalkNothing(data, offset, limit, rest);
    } else {
      var c, others := boxes[0], boxes[1..];
      assert boxes == [c] + others;
      TailWritable(boxes, rest);
      Joined(boxes, rest);
      Cut(data, offset, limit, c.Written(), WriteAll(others) + rest);
      FitsLength(c);
      EndsHere(c, others, rest);
      HeaderOfWritten(data, c, offset, limit);
      if c.coding == ToEnd {
        assert boxes == [c];
        WalkLast(data, offset, limit, c);
      } else {
        WalkWritten(data, offset + c.Size(), limit, others, rest);
        WalkMore(data, offset, limit, c, others);
      }
    }
  }

  lemma WalkLast(data: seq<byte>, offset: nat, limit: nat, c: Coded)
    requires offset + 8 <= limit <= |data| && HeaderAt(data, offset, limit) == Ok(Boxes.Header(c.Header(), c.Size()))
    requires RunsToEnd(data, offset) && data[offset + 4..offset + 8] == c.box.name
    ensures BoxesIn(data, offset, limit) == Ok(Places([c], offset))
  {
    hide HeaderAt, RunsToEnd;
    var place := Span(c.box.name, offset + c.Header(), offset + c.Size());
    assert [c][1..] == [] && [place] + [] == [place];
    assert Places([c], offset) == [place];
  }

  lemma WalkMore(data: seq<byte>, offset: nat, limit: nat, c: Coded, others: seq<Coded>)
    requires offset + 8 <= limit <= |data| && HeaderAt(data, offset, limit) == Ok(Boxes.Header(c.Header(), c.Size()))
    requires !RunsToEnd(data, offset) && data[offset + 4..offset + 8] == c.box.name && offset + c.Size() <= limit
    requires BoxesIn(data, offset + c.Size(), limit) == Ok(Places(others, offset + c.Size()))
    ensures BoxesIn(data, offset, limit) == Ok(Places([c] + others, offset))
  {
    hide HeaderAt, RunsToEnd;
    assert ([c] + others)[1..] == others;
  }

  lemma WalkNothing(data: seq<byte>, offset: nat, limit: nat, rest: seq<byte>)
    requires offset <= limit <= |data| && Writable([], rest) && data[offset..limit] == WriteAll([]) + rest
    ensures BoxesIn(data, offset, limit) == Ok(Places([], offset))
  {
    assert |data[offset..limit]| < 8;
  }

  lemma FitsLength(c: Coded)
    requires c.Fits()
    ensures |c.Written()| == c.Size() && |c.box.name| == 4
  {
    WrittenParts(c);
    hide Coded.Written;
  }

  lemma Joined(boxes: seq<Coded>, rest: seq<byte>)
    requires boxes != []
    ensures WriteAll(boxes) + rest == boxes[0].Written() + (WriteAll(boxes[1..]) + rest)
  {
  }

  lemma EndsHere(c: Coded, others: seq<Coded>, rest: seq<byte>)
    requires c.coding == ToEnd ==> others == [] && rest == []
    ensures c.coding == ToEnd ==> WriteAll(others) + rest == []
  {
  }

  // ---------- and back ----------

  lemma EightBytesFit(bytes: seq<byte>)
    requires |bytes| == 8
    ensures FromBytes(bytes) < SIZE_LIMIT * SIZE_LIMIT
  {
    ToFromBytes(bytes);
    EightBytes();
    hide FromBytes, ToBytes, Pow256;
  }

  /** The first box of an accepted range, in the way that it is written. */
  lemma FirstWritten(data: seq<byte>, offset: nat, limit: nat) returns (c: Coded)
    requires offset + 8 <= limit <= |data| && HeaderAt(data, offset, limit).Ok?
    ensures c.Fits() && HeaderAt(data, offset, limit) == Ok(Boxes.Header(c.Header(), c.Size()))
    ensures offset + c.Size() <= limit && data[offset..offset + c.Size()] == c.Written()
    ensures data[offset + 4..offset + 8] == c.box.name
    ensures (c.coding == ToEnd <==> RunsToEnd(data, offset)) && (c.coding == ToEnd ==> offset + c.Size() == limit)
  {
    var h := HeaderAt(data, offset, limit).value;
    var size := FromBytes(data[offset..offset + 4]);
    var coding := if size == 0 then ToEnd else if size == 1 then Long else Short;
    c := Coded(Box(data[offset + 4..offset + 8], data[offset + h.length..offset + h.size]), coding);
    ToFromBytes(data[offset..offset + 4]);
    FourBytesFit(data[offset..offset + 4]);
    if size == 1 {
      ToFromBytes(data[offset + 8..offset + 16]);
      EightBytesFit(data[offset + 8..offset + 16]);
    }
    hide FromBytes, ToBytes;
    Pieces(data, offset, offset + h.length, offset + h.size);
  }

  lemma Pieces(data: seq<byte>, a: nat, b: nat, end: nat)
    requires a + 8 <= b <= end <= |data|
    ensures data[a..end] == data[a..a + 4] + data[a + 4..a + 8] + data[a + 8..b] + data[b..end]
    ensures b == a + 8 ==> data[a..end] == data[a..a + 4] + data[a + 4..a + 8] + data[b..end]
  {
  }

  /** Every range that is accepted was written in one of these ways, and what was found is what was written. */
  lemma {:induction false} AcceptedIsWritten(data: seq<byte>, offset: nat, limit: nat) returns (boxes: seq<Coded>, rest: seq<byte>)
    requires offset <= limit <= |data| && BoxesIn(data, offset, limit).Ok?
    ensures Writable(boxes, rest) && data[offset..limit] == WriteAll(boxes) + rest
    ensures BoxesIn(data, offset, limit) == Ok(Places(boxes, offset))
    decreases limit - offset
  {
    hide HeaderAt, FromBytes, RunsToEnd, Coded.Written, Coded.Fits, WriteAll, Places, Writable;
    if offset + 8 > limit {
      boxes, rest := [], data[offset..limit];
      NothingWritten(rest);
    } else {
      var c := FirstWritten(data, offset, limit);
      if c.coding == ToEnd {
        boxes, rest := [c], [];
        OneWritten(c);
      } else {
        var others, left := AcceptedIsWritten(data, offset + c.Size(), limit);
        boxes, rest := [c] + others, left;
        MoreWritten(c, others, left);
        SliceJoins(data, offset, offset + c.Size(), limit);
      }
    }
    WalkWritten(data, offset, limit, boxes, rest);
  }

  lemma NothingWritten(rest: seq<byte>)
    requires |rest| < 8
    ensures Writable([], rest) && WriteAll([]) + rest == rest
  {
  }

  lemma OneWritten(c: Coded)
    requires c.Fits()
    ensures Writable([c], []) && WriteAll([c]) + [] == c.Written()
  {
    hide Coded.Fits, Coded.Written;
    assert [c][1..] == [];
  }

  lemma MoreWritten(c: Coded, others: seq<Coded>, rest: seq<byte>)
    requires c.Fits() && c.coding != ToEnd && Writable(others, rest)
    ensures Writable([c] + others, rest) && WriteAll([c] + others) + rest == c.Written() + (WriteAll(others) + rest)
  {
    hide Coded.Fits, Coded.Written;
    var boxes := [c] + others;
    assert boxes[1..] == others && forall i | 0 < i < |boxes| :: boxes[i] == others[i - 1];
  }

  /**
    The walker accepts exactly what can be written: boxes with sizes of four or eight bytes, a last one that may
    run to the end, and less than a header left over. It finds each of them where it was written.
   */
  lemma AcceptedIff(data: seq<byte>, offset: nat, limit: nat, spans: seq<Span>)
    requires offset <= limit <= |data|
    ensures BoxesIn(data, offset, limit) == Ok(spans) <==>
      exists boxes, rest :: Writable(boxes, rest) && data[offset..limit] == WriteAll(boxes) + rest && spans == Places(boxes, offset)
  {
    hide BoxesIn, Writable, WriteAll, Places;
    if BoxesIn(data, offset, limit) == Ok(spans) {
      var boxes, rest := AcceptedIsWritten(data, offset, limit);
    }
    if boxes, rest :| Writable(boxes, rest) && data[offset..limit] == WriteAll(boxes) + rest && spans == Places(boxes, offset) {
      WalkWritten(data, offset, limit, boxes, rest);
    }
  }
}
