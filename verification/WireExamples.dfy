/** One message of each codec, byte by byte: round trips alone would not tell the order of fields
    or bytes. */
module WireExamples {
  import opened Bytes
  import opened CommandWire
  import ClockProtocol

  lemma TwoBytes(a: byte, b: byte)
    ensures BigEndian(2, 0x100 * a + b) == [a, b]
    ensures LittleEndian(2, 0x100 * a + b) == [b, a]
  {
    var v := 0x100 * a + b;
    assert v / 256 == a && v % 256 == b;
    assert BigEndian(1, a) == BigEndian(0, 0) + [a];
    assert LittleEndian(1, a) == [a] + LittleEndian(0, 0);
  }

  lemma FourBytes(a: byte, b: byte, c: byte, d: byte)
    ensures BigEndian(4, 0x100_0000 * a + 0x1_0000 * b + 0x100 * c + d) == [a, b, c, d]
    ensures LittleEndian(4, 0x100_0000 * a + 0x1_0000 * b + 0x100 * c + d) == [d, c, b, a]
  {
    var v := 0x100_0000 * a + 0x1_0000 * b + 0x100 * c + d;
    TwoBytes(a, b);
    assert v / 256 == 0x1_0000 * a + 0x100 * b + c && v % 256 == d;
    assert v / 256 / 256 == 0x100 * a + b && v / 256 % 256 == c;
    assert BigEndian(3, v / 256) == BigEndian(2, v / 256 / 256) + [c];
    assert LittleEndian(3, v / 256) == [c] + LittleEndian(2, v / 256 / 256);
  }

  lemma EightBytes(a: byte, b: byte)
    ensures BigEndian(8, 0x100 * a + b) == [0, 0, 0, 0, 0, 0, a, b]
    ensures LittleEndian(8, 0x100 * a + b) == [b, a, 0, 0, 0, 0, 0, 0]
  {
    var v := 0x100 * a + b;
    assert v / 256 == a && v % 256 == b;
    FourBytes(0, 0, 0, 0);
    assert BigEndian(5, 0) == BigEndian(4, 0) + [0];
    assert BigEndian(6, 0) == BigEndian(5, 0) + [0];
    assert BigEndian(7, a) == BigEndian(6, 0) + [a];
    assert LittleEndian(5, 0) == [0] + LittleEndian(4, 0);
    assert LittleEndian(6, 0) == [0] + LittleEndian(5, 0);
    assert LittleEndian(7, a) == [a] + LittleEndian(6, 0);
  }

  lemma OneByte(a: byte)
    ensures BigEndian(1, a) == [a]
  {
    assert BigEndian(1, a) == BigEndian(0, 0) + [a];
  }

  /** The request 0x0102 `a` with the parameters `b` and `c` = `d`, typed as `e`: magic, version and
      number, then the path, the parameters in a row and the named ones, each counted, and the text. */
  lemma RequestBytes()
    ensures PutRequest(WireRequest(0x0102, [[97]], [[98]], [([99], [100])], [101])) ==
      ([0x45, 0x53, 0x43, 0x51] + [1] + [0, 0, 0, 0, 0, 0, 1, 2])
      + ([0, 1] + ([0, 1] + [97]))
      + ([0, 1] + ([0, 1] + [98]))
      + ([0, 1] + (([0, 1] + [99]) + ([0, 1] + [100])))
      + ([0, 0, 0, 1] + [101])
  {
    FourBytes(0x45, 0x53, 0x43, 0x51);
    OneByte(1);
    EightBytes(1, 2);
    TwoBytes(0, 1);
    FourBytes(0, 0, 0, 1);
    OneString([97]);
    OneString([98]);
    OnePair([99], [100]);
    hide BigEndian, PutStrings, PutPairs;
  }

  lemma OneString(v: Bytes)
    ensures PutStrings([v]) == PutString(2, v)
  {
    assert [v][1..] == [];
  }

  lemma OnePair(k: Bytes, v: Bytes)
    ensures PutPairs([(k, v)]) == PutString(2, k) + PutString(2, v)
  {
    assert [(k, v)][1..] == [];
    assert PutString(2, v) + [] == PutString(2, v);
  }

  /** The failure -2 of the request 0x0102, with the message `x`. */
  lemma ResponseBytes()
    ensures PutResponse(Response(0x0102, false, -2, [120])) ==
      ([0x45, 0x53, 0x43, 0x52] + [1] + [0, 0, 0, 0, 0, 0, 1, 2])
      + [0] + [0xFF, 0xFF, 0xFF, 0xFE] + ([0, 0, 0, 1] + [120])
  {
    FourBytes(0x45, 0x53, 0x43, 0x52);
    OneByte(1);
    OneByte(0);
    EightBytes(1, 2);
    FourBytes(0xFF, 0xFF, 0xFF, 0xFE);
    FourBytes(0, 0, 0, 1);
    hide BigEndian;
  }

  /** The clock request number 0x01020304, sent at 0x0506. */
  lemma ClockRequestBytes()
    ensures ClockProtocol.Encode(ClockProtocol.REQUEST_TYPE, ClockProtocol.Message(0, 0x0102_0304, [0x0506])) ==
      [0x4B, 0x4C, 0x43, 0x53] + [1, 1] + [0, 0] + [4, 3, 2, 1] + [6, 5, 0, 0, 0, 0, 0, 0]
  {
    FourBytes(0x53, 0x43, 0x4C, 0x4B);
    TwoBytes(0, 0);
    FourBytes(1, 2, 3, 4);
    EightBytes(5, 6);
    OneTime(0x0506);
    hide LittleEndian, ClockProtocol.EncodeTimes;
  }

  lemma OneTime(t: nat)
    ensures ClockProtocol.EncodeTimes([t]) == LittleEndian(8, t)
  {
    assert [t][1..] == [];
    assert LittleEndian(8, t) + [] == LittleEndian(8, t);
  }
}
