/** Serialising and parsing one RCON packet:
    `length | id | type | body | 0x00 0x00`, every integer four bytes
    little-endian (`BitConverter` on a little-endian machine). The declared
    length counts id, type, body and the two terminators, but not itself. */
module Encoder {
  import opened Wrappers
  import opened Numbers
  import opened Message
  import Utf8
  import MessageType

  /** Id, type and the two terminator bytes; the 4-byte length prefix is
      not included. */
  const HeaderLength: int := 10
  const LengthPrefixSize: int := 4
  /** Offset of the first body byte. */
  const BodyOffset: int := 12

  // ---------------------------------------------------------------------
  // Four-byte little-endian integers

  /** `BitConverter.GetBytes(int)`: two's complement, low byte first. */
  function Int32ToBytes(x: Int32): (r: seq<Byte>)
    ensures |r| == 4
  {
    var u := if x < 0 then x + 0x1_0000_0000 else x;
    var u1 := u / 256;
    var u2 := u1 / 256;
    [u % 256, u1 % 256, u2 % 256, u2 / 256]
  }

  /** `BitConverter.ToInt32(b, 0)` on exactly four bytes. */
  function BytesToInt32(b: seq<Byte>): Int32
    requires |b| == 4
  {
    var u := b[0] as int + 256 * (b[1] as int) + 65536 * (b[2] as int) + 16777216 * (b[3] as int);
    if u >= 0x8000_0000 then u - 0x1_0000_0000 else u
  }

  /** `BitConverter.ToInt32(b, offset)`, which throws unless four bytes
      are available there. */
  function ReadInt32(b: seq<Byte>, offset: nat): Int32
    requires offset + 4 <= |b|
  {
    BytesToInt32(b[offset..offset + 4])
  }

  lemma Int32RoundTrip(x: Int32)
    ensures BytesToInt32(Int32ToBytes(x)) == x
  {
    var u := if x < 0 then x + 0x1_0000_0000 else x;
    var b := Int32ToBytes(x);
    assert b[0] as int + 256 * (b[1] as int) + 65536 * (b[2] as int) + 16777216 * (b[3] as int) == u;
  }

  lemma DivMod256(u: int, q: int, r: int)
    requires 0 <= r < 256 && u == q * 256 + r
    ensures u / 256 == q && u % 256 == r
  {
  }

  lemma BytesRoundTrip(b: seq<Byte>)
    requires |b| == 4
    ensures Int32ToBytes(BytesToInt32(b)) == b
  {
    var b0, b1, b2, b3 := b[0] as int, b[1] as int, b[2] as int, b[3] as int;
    var u := b0 + 256 * b1 + 65536 * b2 + 16777216 * b3;
    var x := BytesToInt32(b);
    assert (if x < 0 then x as int + 0x1_0000_0000 else x as int) == u;
    var q1 := b1 + 256 * b2 + 65536 * b3;
    var q2 := b2 + 256 * b3;
    DivMod256(u, q1, b0);
    DivMod256(q1, q2, b1);
    DivMod256(q2, b3, b2);
  }

  // ---------------------------------------------------------------------
  // Packets

  /** `EncodeMessage`: length, id, type, ASCII body, two zero bytes. */
  function EncodeMessage(m: Message): (r: seq<Byte>)
    ensures |r| == LengthPrefixSize + HeaderLength + |m.body|
    ensures r[..4] == Int32ToBytes(m.length)
    ensures r[4..8] == Int32ToBytes(m.id)
    ensures r[8..12] == Int32ToBytes(m.msgType)
    ensures r[BodyOffset..|r| - 2] == Utf8.AsciiEncode(m.body)
    ensures r[|r| - 2..] == [0, 0]
  {
    var r := Int32ToBytes(m.length) + Int32ToBytes(m.id) + Int32ToBytes(m.msgType)
      + Utf8.AsciiEncode(m.body) + [0, 0];
    assert r[..4] == Int32ToBytes(m.length);
    assert r[4..8] == Int32ToBytes(m.id);
    assert r[8..12] == Int32ToBytes(m.msgType);
    assert r[BodyOffset..|r| - 2] == Utf8.AsciiEncode(m.body);
    r
  }

  /** `BitConverter.ToInt32` throws on a buffer too short for the field it
      reads; the shortest buffer that decodes has 12 bytes. */
  datatype DecodeError = BufferTooShort(size: nat)

  /** `DecodeMessage`: the three header fields verbatim from offsets 0, 4
      and 8 (the length is not checked against the buffer, the type not
      against the enum), and the bytes from offset 12 up to the last two
      as UTF-8 text; a buffer of 14 bytes or fewer has an empty body. */
  function DecodeMessage(b: seq<Byte>): (r: Result<Message, DecodeError>)
    ensures r.Failure? <==> |b| < BodyOffset
    ensures r.Success? ==> r.value.length == ReadInt32(b, 0)
    ensures r.Success? ==> r.value.id == ReadInt32(b, 4)
    ensures r.Success? ==> r.value.msgType == ReadInt32(b, 8)
    ensures r.Success? && |b| <= LengthPrefixSize + HeaderLength ==> r.value.body == ""
    ensures r.Success? && |b| > LengthPrefixSize + HeaderLength ==>
              r.value.body == Utf8.Decode(b[BodyOffset..|b| - 2])
  {
    if |b| < BodyOffset then Failure(BufferTooShort(|b|))
    else
      var len := ReadInt32(b, 0);
      var id := ReadInt32(b, 4);
      var msgType := ReadInt32(b, 8);
      var bodyLen := |b| - (HeaderLength + LengthPrefixSize);
      if bodyLen <= 0 then Success(Message(len, id, msgType, ""))
      else Success(Message(len, id, msgType, Utf8.Decode(b[BodyOffset..BodyOffset + bodyLen])))
  }

  /** Decoding an encoded packet gives the packet back, whatever its
      declared length, id and type, exactly when its body is ASCII. */
  lemma RoundTrip(m: Message)
    ensures DecodeMessage(EncodeMessage(m)) == Success(m) <==> Utf8.IsAscii(m.body)
  {
    var e := EncodeMessage(m);
    Int32RoundTrip(m.length);
    Int32RoundTrip(m.id);
    Int32RoundTrip(m.msgType);
    Utf8.AsciiRoundTrip(m.body);
    if m.body == [] {
      assert Utf8.IsAscii(m.body);
    } else {
      assert DecodeMessage(e).value.body == Utf8.Decode(Utf8.AsciiEncode(m.body));
    }
  }

  /** A packet whose declared length is body + 10, as the client builds
      them, occupies its declared length plus the 4-byte prefix on the wire. */
  lemma EncodedSizeOfWellFormed(m: Message)
    requires m.length == |m.body| + HeaderLength
    ensures |EncodeMessage(m)| == m.length + LengthPrefixSize
  {
  }

  /** Once the header is complete, the two trailing bytes never reach the
      decoded packet. */
  lemma TrailingBytesIgnored(b: seq<Byte>, x: Byte, y: Byte, x': Byte, y': Byte)
    requires |b| >= BodyOffset
    ensures DecodeMessage(b + [x, y]) == DecodeMessage(b + [x', y'])
  {
    var b1, b2 := b + [x, y], b + [x', y'];
    assert b1[0..4] == b[0..4] == b2[0..4];
    assert b1[4..8] == b[4..8] == b2[4..8];
    assert b1[8..12] == b[8..12] == b2[8..12];
    assert b1[BodyOffset..|b1| - 2] == b[BodyOffset..] == b2[BodyOffset..|b2| - 2];
  }

  /** The type field comes back as whatever `int` the sender wrote, even
      one no enum member names. */
  lemma UnnamedTypeSurvives(id: Int32)
    ensures DecodeMessage(EncodeMessage(Message(10, id, 7, ""))) == Success(Message(10, id, 7, ""))
    ensures MessageType.NamesOf(7) == {}
  {
    RoundTrip(Message(10, id, 7, ""));
  }

  /** A body character outside ASCII is written as '?' and read back as
      '?': "é" does not survive the round trip. */
  lemma NonAsciiBodyIsLost()
    ensures DecodeMessage(EncodeMessage(Message(11, 1, 2, "é"))) == Success(Message(11, 1, 2, "?"))
  {
    var m := Message(11, 1, 2, "é");
    var e := EncodeMessage(m);
    Int32RoundTrip(11);
    Int32RoundTrip(1);
    Int32RoundTrip(2);
    assert e[BodyOffset..|e| - 2] == [Utf8.QuestionMark];
    assert Utf8.Decode([Utf8.QuestionMark]) == "?";
  }
}
