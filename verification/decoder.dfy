/** The device state (`ITBData`) and the decoder for answer frames: ADC
    snapshots (type 0x01), per-channel measurements (type 0x03) and
    measurement parameters (type 0x06). Nothing in the decoder catches an
    exception, so an out-of-range index ends the decoding thread; such a
    decode is a `Crashed` outcome carrying the state as it stood when the
    exception was raised. */
module Decoder {
  import opened Bytes
  import opened Parameters
  import opened Channels

  /** Number of raw ADC values the device keeps (`adc_data`). */
  const AdcSlots := 16

  const AdcFrame: byte := 0x01
  const ChannelFrame: byte := 0x03
  const ParamFrame: byte := 0x06

  datatype Device = Device(adc: seq<int>, param: Params, channels: seq<Channel>)
  {
    predicate Valid()
    {
      |adc| == AdcSlots && forall i :: 0 <= i < |channels| ==> channels[i].Valid()
    }
  }

  /** The device object after construction, for `channelNum` channels. */
  function NewDevice(channelNum: nat): (d: Device)
    ensures d.Valid() && |d.channels| == channelNum && d.param == DefaultParams
    ensures forall i :: 0 <= i < AdcSlots ==> d.adc[i] == 0
    ensures forall i :: 0 <= i < channelNum ==> d.channels[i] == NewChannel()
  {
    Device(seq(AdcSlots, _ => 0), DefaultParams, seq(channelNum, _ => NewChannel()))
  }

  /** A de-framed answer: its type byte and its payload. */
  datatype Frame = Frame(kind: byte, payload: seq<byte>)

  /** The IndexErrors the decoder can raise. */
  datatype Fault =
    | AdcSlotOutOfRange(slot: nat)                // `adc_data[i]` with i >= 16
    | MissingGainByte(channel: nat)               // `data[0]` of an empty record
    | GainOutOfRange(channel: nat, gain: byte)    // `cal_a[data[0]]` with a gain byte >= 4

  datatype Outcome = Done(dev: Device) | Crashed(dev: Device, fault: Fault)

  /** Big-endian unsigned 16-bit word at ADC line i of a payload. */
  function AdcWord(payload: seq<byte>, i: nat): (r: nat)
    requires 2 * i + 2 <= |payload|
    ensures r == (payload[2 * i] as int) * 256 + payload[2 * i + 1]
  {
    UnsignedPair(payload[2 * i], payload[2 * i + 1]);
    assert payload[2 * i..2 * i + 2] == [payload[2 * i], payload[2 * i + 1]];
    Unsigned(payload[2 * i..2 * i + 2])
  }

  /** ADC snapshot (type 0x01): line i of the payload goes to slot i for
      i < len/2; an odd trailing byte is ignored. A payload with more lines
      than slots writes all 16 slots and then fails on slot 16. */
  function ParseAdc(dev: Device, payload: seq<byte>): (r: Outcome)
    requires dev.Valid()
    ensures r.dev.Valid() && r.dev.param == dev.param && r.dev.channels == dev.channels
    ensures r.Done? <==> |payload| / 2 <= AdcSlots
    ensures r.Crashed? ==> r.fault == AdcSlotOutOfRange(AdcSlots)
    ensures forall i :: 0 <= i < AdcSlots ==>
      r.dev.adc[i] == if i < |payload| / 2
                      then (payload[2 * i] as int) * 256 + payload[2 * i + 1]
                      else dev.adc[i]
  {
    var lines := |payload| / 2;
    var adc := seq(AdcSlots, i requires 0 <= i < AdcSlots =>
                                if i < lines then AdcWord(payload, i) else dev.adc[i]);
    if lines <= AdcSlots then Done(dev.(adc := adc))
    else Crashed(dev.(adc := adc), AdcSlotOutOfRange(AdcSlots))
  }

  /** Two's-complement value of one byte. */
  function S8(b: byte): int
  {
    if b >= 128 then b - 256 else b
  }

  /** Two's-complement value of a big-endian byte pair. */
  function S16(hi: byte, lo: byte): int
  {
    (hi as int) * 256 + lo - (if hi >= 128 then 0x10000 else 0)
  }

  lemma SignedByte(b: byte)
    ensures Signed([b]) == S8(b)
  {
    assert [b][..0] == [];
  }

  lemma SignedPair(hi: byte, lo: byte)
    ensures Signed([hi, lo]) == S16(hi, lo)
  {
    UnsignedPair(hi, lo);
  }

  /** Channel num's record: `ful_data[8*num : 8*num + 8]`. */
  function Record(payload: seq<byte>, num: nat): (r: seq<byte>)
    ensures 8 * num < |payload| ==> |r| >= 1 && r[0] == payload[8 * num]
  {
    Slice(payload, 8 * num, 8 * num + 8)
  }

  /** The record for channel num has a gain byte the calibration table
      can be indexed with. */
  predicate GoodRecord(payload: seq<byte>, num: nat)
  {
    8 * num < |payload| && payload[8 * num] < GainCount
  }

  /** The exception a record without a usable gain byte raises. */
  function BadRecordFault(payload: seq<byte>, num: nat): Fault
  {
    if 8 * num < |payload| then GainOutOfRange(num, payload[8 * num]) else MissingGainByte(num)
  }

  /** `int.from_bytes(rec[a:a+1], signed=True)`: the signed byte at a, or
      0 when the record is too short to hold it. */
  function ByteField(rec: seq<byte>, a: nat): (r: int)
    ensures |rec| > a ==> r == S8(rec[a])
    ensures |rec| <= a ==> r == 0
  {
    if |rec| > a then
      assert Slice(rec, a, a + 1) == [rec[a]];
      SignedByte(rec[a]);
      Signed(Slice(rec, a, a + 1))
    else
      Signed(Slice(rec, a, a + 1))
  }

  /** `int.from_bytes(rec[a:a+2], signed=True)`: the signed big-endian pair
      at a; a record ending inside the pair reads its single byte, and one
      ending before it reads 0. */
  function WordField(rec: seq<byte>, a: nat): (r: int)
    ensures |rec| >= a + 2 ==> r == S16(rec[a], rec[a + 1])
    ensures |rec| == a + 1 ==> r == S8(rec[a])
    ensures |rec| <= a ==> r == 0
  {
    if |rec| >= a + 2 then
      assert Slice(rec, a, a + 2) == [rec[a], rec[a + 1]];
      SignedPair(rec[a], rec[a + 1]);
      Signed(Slice(rec, a, a + 2))
    else if |rec| == a + 1 then
      assert Slice(rec, a, a + 2) == [rec[a]];
      SignedByte(rec[a]);
      Signed(Slice(rec, a, a + 2))
    else
      Signed(Slice(rec, a, a + 2))
  }

  /** One channel's reading decoded from its record: byte 0 is the gain
      code, byte 1 the signed temperature, bytes 2-3, 4-5 and 6-7 the signed
      current, signal and zero readings; the current is calibrated with the
      pair for that gain. A short record reads whatever its slices still
      hold. */
  function RecordReading(c: Channel, rec: seq<byte>, now: real): (d: Reading)
    requires c.Valid() && |rec| >= 1 && rec[0] < GainCount
    ensures d.time == now && d.gain == rec[0]
    ensures d.current == Calibrate(c, rec[0], d.currentRaw)
    ensures |rec| >= 2 ==> d.temperature == S8(rec[1])
    ensures |rec| < 2 ==> d.temperature == 0
    ensures |rec| >= 4 ==> d.currentRaw == S16(rec[2], rec[3])
    ensures |rec| == 3 ==> d.currentRaw == S8(rec[2])
    ensures |rec| <= 2 ==> d.currentRaw == 0
    ensures |rec| >= 6 ==> d.signalRaw == S16(rec[4], rec[5])
    ensures |rec| == 5 ==> d.signalRaw == S8(rec[4])
    ensures |rec| <= 4 ==> d.signalRaw == 0
    ensures |rec| >= 8 ==> d.zeroRaw == S16(rec[6], rec[7])
    ensures |rec| == 7 ==> d.zeroRaw == S8(rec[6])
    ensures |rec| <= 6 ==> d.zeroRaw == 0
  {
    var g := rec[0];
    var raw := WordField(rec, 2);
    assert [g][..0] == [] && Slice(rec, 0, 1) == [g];
    Reading(now, Calibrate(c, g, raw), ByteField(rec, 1), raw,
            WordField(rec, 4), WordField(rec, 6), Unsigned(Slice(rec, 0, 1)))
  }

  /** `parc_channel_data` for one channel: the reading decoded from its
      record is stored and appended to the series. */
  function DecodeRecord(c: Channel, rec: seq<byte>, now: real): (r: Channel)
    requires c.Valid() && |rec| >= 1 && rec[0] < GainCount
    ensures r.Valid() && r.redraw && r.calA == c.calA && r.calB == c.calB
    ensures r.data == RecordReading(c, rec, now)
    ensures forall k :: 0 <= k < FieldCount ==> r.graph[k] == c.graph[k] + [r.data.Row()[k]]
  {
    var r := CreateGraphData(c.(data := RecordReading(c, rec, now)));
    assert forall k :: 0 <= k < FieldCount ==> r.graph[k] == c.graph[k] + [r.data.Row()[k]] by {
      forall k | 0 <= k < FieldCount
        ensures r.graph[k] == c.graph[k] + [r.data.Row()[k]]
      {
        assert r.graph[k][..|c.graph[k]|] == c.graph[k];
      }
    }
    r
  }

  /** The channel as left by a failing decode: its time stamp was already
      written when the exception was raised. */
  function Stamped(c: Channel, now: real): Channel
  {
    c.(data := c.data.(time := now))
  }

  /** Channel n of `r` holds channel n of `dev` decoded from its (good) record. */
  predicate DecodedAt(dev: Device, r: Device, payload: seq<byte>, now: real, n: nat)
    requires dev.Valid() && n < |dev.channels| && n < |r.channels|
  {
    GoodRecord(payload, n) && r.channels[n] == DecodeRecord(dev.channels[n], Record(payload, n), now)
  }

  /** How the channels look after a decode that failed at channel `m`:
      the ones before it decoded, channel `m` stamped, the rest untouched. */
  ghost predicate CrashedAt(dev: Device, r: Device, payload: seq<byte>, now: real, m: nat)
    requires dev.Valid()
  {
    && m < |dev.channels| == |r.channels|
    && !GoodRecord(payload, m)
    && (forall n :: 0 <= n < m ==> DecodedAt(dev, r, payload, now, n))
    && r.channels[m] == Stamped(dev.channels[m], now)
    && (forall n :: m < n < |dev.channels| ==> r.channels[n] == dev.channels[n])
  }

  /** The first channel at or after `from` whose record is not good, or
      `count` when there is none. */
  function FirstBad(payload: seq<byte>, count: nat, from: nat): (m: nat)
    requires from <= count
    ensures from <= m <= count
    ensures forall n :: from <= n < m ==> GoodRecord(payload, n)
    ensures m < count ==> !GoodRecord(payload, m)
    decreases count - from
  {
    if from == count || !GoodRecord(payload, from) then from
    else FirstBad(payload, count, from + 1)
  }

  /** The first bad record is the only channel that is both preceded by
      good records only and bad itself. */
  lemma FirstBadUnique(payload: seq<byte>, count: nat, m: nat)
    requires m <= count
    requires forall n :: 0 <= n < m ==> GoodRecord(payload, n)
    requires m < count ==> !GoodRecord(payload, m)
    ensures FirstBad(payload, count, 0) == m
  {
  }

  /** Channel i after a decode that stops at channel m: decoded before m,
      stamped at m, untouched after. */
  function ChannelAfter(c: Channel, payload: seq<byte>, now: real, m: nat, i: nat): Channel
    requires c.Valid() && (i < m ==> GoodRecord(payload, i))
  {
    if i < m then DecodeRecord(c, Record(payload, i), now)
    else if i == m then Stamped(c, now)
    else c
  }

  /** Channel measurements (type 0x03): every channel, in channel order,
      takes its 8-byte record, until a record without a usable gain byte
      raises; that channel has been stamped and the later ones are left as
      they were. */
  function ParseChannelData(dev: Device, payload: seq<byte>, now: real): (r: Outcome)
    requires dev.Valid()
    ensures r.dev.Valid() && |r.dev.channels| == |dev.channels|
    ensures r.dev.adc == dev.adc && r.dev.param == dev.param
    ensures r.Done? <==> forall n :: 0 <= n < |dev.channels| ==> GoodRecord(payload, n)
    ensures r.Crashed? ==>
      && !r.fault.AdcSlotOutOfRange?
      && r.fault == BadRecordFault(payload, r.fault.channel)
      && CrashedAt(dev, r.dev, payload, now, r.fault.channel)
  {
    var count := |dev.channels|;
    var m := FirstBad(payload, count, 0);
    var chs := seq(count, i requires 0 <= i < count => ChannelAfter(dev.channels[i], payload, now, m, i));
    var r := dev.(channels := chs);
    if m == count then Done(r) else Crashed(r, BadRecordFault(payload, m))
  }

  /** When every record is good, every channel is decoded from its own
      record. */
  lemma ParseChannelDataDecodesAll(dev: Device, payload: seq<byte>, now: real)
    requires dev.Valid()
    requires forall n :: 0 <= n < |dev.channels| ==> GoodRecord(payload, n)
    ensures ParseChannelData(dev, payload, now).Done?
    ensures forall n :: 0 <= n < |dev.channels| ==>
      DecodedAt(dev, ParseChannelData(dev, payload, now).dev, payload, now, n)
  {
    var r := ParseChannelData(dev, payload, now).dev;
    FirstBadUnique(payload, |dev.channels|, |dev.channels|);
    forall n | 0 <= n < |dev.channels|
      ensures DecodedAt(dev, r, payload, now, n)
    {
      assert GoodRecord(payload, n);
      assert r.channels[n] == DecodeRecord(dev.channels[n], Record(payload, n), now);
    }
  }

  /** The channels after the loop has decoded channels 0 to i-1. */
  predicate DecodedUpTo(dev: Device, payload: seq<byte>, now: real, chs: seq<Channel>, i: nat)
    requires dev.Valid()
  {
    && i <= |chs| == |dev.channels|
    && (forall n :: 0 <= n < i ==> DecodedAt(dev, dev.(channels := chs), payload, now, n))
    && (forall n :: i <= n < |chs| ==> chs[n] == dev.channels[n])
  }

  /** The loop stopping at a bad record i ends where `ParseChannelData` does. */
  lemma StopMatches(dev: Device, payload: seq<byte>, now: real, chs: seq<Channel>, i: nat)
    requires dev.Valid() && DecodedUpTo(dev, payload, now, chs, i) && i < |chs|
    requires !GoodRecord(payload, i)
    ensures Crashed(dev.(channels := chs[i := Stamped(chs[i], now)]), BadRecordFault(payload, i))
         == ParseChannelData(dev, payload, now)
  {
    forall n | 0 <= n < i
      ensures GoodRecord(payload, n)
    {
      assert DecodedAt(dev, dev.(channels := chs), payload, now, n);
    }
    FirstBadUnique(payload, |chs|, i);
    var r := ParseChannelData(dev, payload, now);
    forall n | 0 <= n < i
      ensures chs[n] == r.dev.channels[n]
    {
      assert DecodedAt(dev, dev.(channels := chs), payload, now, n);
    }
    assert chs[i := Stamped(chs[i], now)] == r.dev.channels;
  }

  /** The loop running to the end ends where `ParseChannelData` does. */
  lemma EndMatches(dev: Device, payload: seq<byte>, now: real, chs: seq<Channel>)
    requires dev.Valid() && DecodedUpTo(dev, payload, now, chs, |chs|)
    ensures Done(dev.(channels := chs)) == ParseChannelData(dev, payload, now)
  {
    forall n | 0 <= n < |chs|
      ensures GoodRecord(payload, n)
    {
      assert DecodedAt(dev, dev.(channels := chs), payload, now, n);
    }
    FirstBadUnique(payload, |chs|, |chs|);
    var r := ParseChannelData(dev, payload, now);
    forall n | 0 <= n < |chs|
      ensures chs[n] == r.dev.channels[n]
    {
      assert DecodedAt(dev, dev.(channels := chs), payload, now, n);
    }
    assert chs == r.dev.channels;
  }

  /** Decoding channel i's good record extends the decoded prefix by one. */
  lemma StepKeeps(dev: Device, payload: seq<byte>, now: real, chs: seq<Channel>, i: nat)
    requires dev.Valid() && DecodedUpTo(dev, payload, now, chs, i) && i < |chs|
    requires GoodRecord(payload, i)
    ensures DecodedUpTo(dev, payload, now, chs[i := DecodeRecord(chs[i], Record(payload, i), now)], i + 1)
  {
    var next := chs[i := DecodeRecord(chs[i], Record(payload, i), now)];
    forall n | 0 <= n < i + 1
      ensures DecodedAt(dev, dev.(channels := next), payload, now, n)
    {
      if n < i {
        assert DecodedAt(dev, dev.(channels := chs), payload, now, n);
      }
    }
  }

  /** The decoding loop as the source runs it: channel by channel, stopping
      at the first record that raises. It computes the same outcome as
      `ParseChannelData`. */
  method DecodeChannels(dev: Device, payload: seq<byte>, now: real) returns (r: Outcome)
    requires dev.Valid()
    ensures r == ParseChannelData(dev, payload, now)
  {
    var chs := dev.channels;
    var i := 0;
    while i < |chs|
      invariant DecodedUpTo(dev, payload, now, chs, i)
    {
      if !GoodRecord(payload, i) {
        StopMatches(dev, payload, now, chs, i);
        return Crashed(dev.(channels := chs[i := Stamped(chs[i], now)]), BadRecordFault(payload, i));
      }
      StepKeeps(dev, payload, now, chs, i);
      chs := chs[i := DecodeRecord(chs[i], Record(payload, i), now)];
      i := i + 1;
    }
    EndMatches(dev, payload, now, chs);
    r := Done(dev.(channels := chs));
  }

  /** One answer dispatched on its type byte; a type other than 0x01, 0x03
      and 0x06 is ignored. `now` is the clock reading stored as each
      decoded channel's time stamp. */
  function ProcessFrame(dev: Device, f: Frame, now: real): (r: Outcome)
    requires dev.Valid()
    ensures r.dev.Valid() && |r.dev.channels| == |dev.channels|
    ensures f.kind == AdcFrame ==> r == ParseAdc(dev, f.payload)
    ensures f.kind == ChannelFrame ==> r == ParseChannelData(dev, f.payload, now)
    ensures f.kind == ParamFrame ==> r == Done(dev.(param := DecodeParams(f.payload)))
    ensures f.kind !in {AdcFrame, ChannelFrame, ParamFrame} ==> r == Done(dev)
  {
    if f.kind == AdcFrame then ParseAdc(dev, f.payload)
    else if f.kind == ChannelFrame then ParseChannelData(dev, f.payload, now)
    else if f.kind == ParamFrame then Done(dev.(param := DecodeParams(f.payload)))
    else Done(dev)
  }
}
