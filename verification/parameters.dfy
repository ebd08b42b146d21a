/** The instrument's measurement parameters and their 8-byte wire form:
    the answer of type 0x06 and the payload of the parameter-write request
    both carry a big-endian u32 measurement time in milliseconds followed by a
    big-endian u32 dead time in milliseconds. */
module Parameters {
  import opened Bytes

  /** `param`: measurement time in seconds and dead time in milliseconds. */
  datatype Params = Params(measureTime: real, deadTime: real)

  /** The values the device object starts with. */
  const DefaultParams := Params(1.0, 100.0)

  const U32Range := 0x1_0000_0000

  /** Python's `int(x)` on a float: truncation toward zero. */
  function Trunc(x: real): (r: int)
    ensures x >= 0.0 ==> r >= 0 && r as real <= x < r as real + 1.0
    ensures x < 0.0 ==> r <= 0 && r as real - 1.0 < x <= r as real
  {
    if x >= 0.0 then x.Floor else -((-x).Floor)
  }

  /** Decoding a parameter answer (type 0x06): the first four bytes are the
      measurement time in milliseconds, the next four the dead time. A short
      payload reads whatever bytes its slices still hold. */
  function DecodeParams(data: seq<byte>): (p: Params)
    ensures |data| >= 8 ==>
      p.measureTime * 1000.0 == ((((data[0] as int) * 256 + data[1]) * 256 + data[2]) * 256 + data[3]) as real
    ensures |data| >= 8 ==>
      p.deadTime == ((((data[4] as int) * 256 + data[5]) * 256 + data[6]) * 256 + data[7]) as real
    ensures |data| >= 4 ==> p.measureTime * 1000.0 == Unsigned(data[..4]) as real
    ensures |data| < 4 ==> p.measureTime * 1000.0 == Unsigned(data) as real
    ensures |data| >= 8 ==> p.deadTime == Unsigned(data[4..8]) as real
    ensures 4 < |data| < 8 ==> p.deadTime == Unsigned(data[4..]) as real
    ensures |data| <= 4 ==> p.deadTime == 0.0
    ensures 0.0 <= p.measureTime && p.measureTime * 1000.0 < U32Range as real
    ensures 0.0 <= p.deadTime < U32Range as real
  {
    var msHead := Slice(data, 0, 4);
    var deadTail := Slice(data, 4, 8);
    FullWords(data);
    assert |data| >= 4 ==> msHead == data[..4];
    assert |data| < 4 ==> msHead == data;
    assert |data| >= 8 ==> deadTail == data[4..8];
    assert 4 < |data| < 8 ==> deadTail == data[4..];
    Params((Unsigned(msHead) as real) / 1000.0, Unsigned(deadTail) as real)
  }

  /** Both words of a full 8-byte payload, digit by digit. */
  lemma FullWords(data: seq<byte>)
    ensures |data| >= 8 ==>
      Unsigned(Slice(data, 0, 4)) == (((data[0] as int) * 256 + data[1]) * 256 + data[2]) * 256 + data[3]
    ensures |data| >= 8 ==>
      Unsigned(Slice(data, 4, 8)) == (((data[4] as int) * 256 + data[5]) * 256 + data[6]) * 256 + data[7]
  {
    if |data| >= 8 {
      assert Slice(data, 0, 4) == data[..4];
      assert Slice(data, 4, 8) == data[4..8];
      BigEndianWord(data[..4]);
      BigEndianWord(data[4..8]);
    }
  }

  /** A 4-byte big-endian word, digit by digit. */
  lemma BigEndianWord(w: seq<byte>)
    requires |w| == 4
    ensures Unsigned(w) == (((w[0] as int) * 256 + w[1]) * 256 + w[2]) * 256 + w[3]
  {
    UnsignedSnoc([], w[0]);
    assert [] + [w[0]] == w[..1];
    UnsignedSnoc(w[..1], w[1]);
    assert w[..1] + [w[1]] == w[..2];
    UnsignedSnoc(w[..2], w[2]);
    assert w[..2] + [w[2]] == w[..3];
    UnsignedSnoc(w[..3], w[3]);
    assert w[..3] + [w[3]] == w;
  }
}
