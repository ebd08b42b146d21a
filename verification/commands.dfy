/** Command payloads the device object hands to the serial transport: the
    measurement-mode switch, the two-channel DAC setting and the parameter
    write. Each builder returns the request it would submit. */
module Commands {
  import opened Bytes
  import opened Wrappers
  import opened Parameters

  /** The `req_type` strings these builders use. */
  datatype ReqType = MeasureMode | DacSet | ItbParamWrite

  datatype Request = Request(reqType: ReqType, data: seq<byte>)

  predicate IsPrefix(a: string, b: string)
  {
    |a| <= |b| && b[..|a|] == a
  }

  /** Python's `needle in hay` on strings: `needle` occurs in `hay` as a
      contiguous run (the empty string occurs everywhere). */
  predicate InStr(needle: string, hay: string)
    decreases |hay|
  {
    IsPrefix(needle, hay) || (|hay| > 0 && InStr(needle, hay[1..]))
  }

  /** `needle` occurs in `hay` starting at position i. */
  ghost predicate OccursAt(needle: string, hay: string, i: int)
  {
    0 <= i && i + |needle| <= |hay| && hay[i..i + |needle|] == needle
  }

  /** The scan agrees with the definition of a substring, in both directions. */
  lemma {:induction false} InStrIff(needle: string, hay: string)
    ensures InStr(needle, hay) <==> exists i :: OccursAt(needle, hay, i)
    decreases |hay|
  {
    if IsPrefix(needle, hay) {
      assert OccursAt(needle, hay, 0);
    } else if |hay| == 0 {
      assert forall i :: !OccursAt(needle, hay, i);
    } else {
      var tail := hay[1..];
      InStrIff(needle, tail);
      if InStr(needle, tail) {
        var i :| OccursAt(needle, tail, i);
        assert hay[i + 1..i + 1 + |needle|] == tail[i..i + |needle|];
        assert OccursAt(needle, hay, i + 1);
      } else {
        forall i | OccursAt(needle, hay, i)
          ensures false
        {
          if i != 0 {
            assert tail[i - 1..i - 1 + |needle|] == hay[i..i + |needle|];
            assert OccursAt(needle, tail, i - 1);
          }
        }
      }
    }
  }

  /** Only something no longer than the text can occur in it. */
  lemma {:induction false} InStrLength(needle: string, hay: string)
    requires InStr(needle, hay)
    ensures |needle| <= |hay|
    decreases |hay|
  {
    if !IsPrefix(needle, hay) {
      InStrLength(needle, hay[1..]);
    }
  }

  /** `cmd_start_measure`: the mode is checked against "stop", then "single",
      then "cycle" with Python's substring test, and the first match picks
      the mode byte; a mode that occurs in none of them sends nothing. */
  function StartMeasure(mode: string): (r: Option<Request>)
    ensures r == Some(Request(MeasureMode, [0x00])) <==> InStr(mode, "stop")
    ensures r == Some(Request(MeasureMode, [0x02])) <==> !InStr(mode, "stop") && InStr(mode, "single")
    ensures r == Some(Request(MeasureMode, [0x01]))
        <==> !InStr(mode, "stop") && !InStr(mode, "single") && InStr(mode, "cycle")
    ensures r.None? <==> !InStr(mode, "stop") && !InStr(mode, "single") && !InStr(mode, "cycle")
    ensures r.Some? ==> r.value.reqType == MeasureMode && |r.value.data| == 1
    ensures |mode| > 6 ==> r == None
  {
    if InStr(mode, "stop") then
      InStrLength(mode, "stop");
      Some(Request(MeasureMode, [0x00]))
    else if InStr(mode, "single") then
      InStrLength(mode, "single");
      Some(Request(MeasureMode, [0x02]))
    else if InStr(mode, "cycle") then
      InStrLength(mode, "cycle");
      Some(Request(MeasureMode, [0x01]))
    else None
  }

  /** The three named modes get their own bytes, and shorter strings are
      caught by the first name they occur in: "s" and the empty string stop,
      "e" starts a single measurement, "c" starts cycling, "x" sends nothing. */
  lemma StartMeasureModes()
    ensures StartMeasure("stop") == Some(Request(MeasureMode, [0x00]))
    ensures StartMeasure("single") == Some(Request(MeasureMode, [0x02]))
    ensures StartMeasure("cycle") == Some(Request(MeasureMode, [0x01]))
    ensures StartMeasure("s") == Some(Request(MeasureMode, [0x00]))
    ensures StartMeasure("") == Some(Request(MeasureMode, [0x00]))
    ensures StartMeasure("e") == Some(Request(MeasureMode, [0x02]))
    ensures StartMeasure("c") == Some(Request(MeasureMode, [0x01]))
    ensures StartMeasure("x") == None
  {
    assert IsPrefix("stop", "stop");
    assert IsPrefix("single", "single");
    assert IsPrefix("cycle", "cycle");
    assert IsPrefix("s", "stop");
    assert IsPrefix("", "stop");
    assert IsPrefix("e", "single"[5..]);
    assert IsPrefix("c", "cycle");
    NotLonger("single", "stop");
    NotLonger("cycle", "stop");
    NotHead("cycle", "single");
    NotHead("e", "stop");
    NotHead("c", "stop");
    NotHead("c", "single");
    NotHead("x", "stop");
    NotHead("x", "single");
    NotHead("x", "cycle");
  }

  /** Whatever occurs in a text has its first character in the text. */
  lemma {:induction false} InStrHead(needle: string, hay: string)
    requires |needle| > 0 && InStr(needle, hay)
    ensures needle[0] in hay
    decreases |hay|
  {
    if IsPrefix(needle, hay) {
      assert hay[0] == needle[0];
    } else {
      InStrHead(needle, hay[1..]);
    }
  }

  lemma NotHead(needle: string, hay: string)
    requires |needle| > 0 && needle[0] !in hay
    ensures !InStr(needle, hay)
  {
    if InStr(needle, hay) {
      InStrHead(needle, hay);
    }
  }

  lemma NotLonger(needle: string, hay: string)
    requires |needle| > |hay|
    ensures !InStr(needle, hay)
  {
    if InStr(needle, hay) {
      InStrLength(needle, hay);
    }
  }

  /** `cmd_dac_set` from whole millivolts: each channel's value goes out as
      its high byte then its low byte (`(v >> 8) & 0xFF`, `v & 0xFF`). */
  function DacSetRequest(ch1mV: int, ch2mV: int): (r: Request)
    ensures r.reqType == DacSet && |r.data| == 4
    ensures Unsigned(r.data[..2]) == ch1mV % 0x10000
    ensures Unsigned(r.data[2..]) == ch2mV % 0x10000
    ensures r.data[0] == (ch1mV / 256) % 256 && r.data[1] == ch1mV % 256
    ensures r.data[2] == (ch2mV / 256) % 256 && r.data[3] == ch2mV % 256
  {
    var hi1 := ToBytes(ch1mV, 2);
    var hi2 := ToBytes(ch2mV, 2);
    UnsignedOfToBytes(ch1mV, 2);
    UnsignedOfToBytes(ch2mV, 2);
    ToBytesShifts(ch1mV, 2, 0);
    ToBytesShifts(ch2mV, 2, 0);
    assert (hi1 + hi2)[..2] == hi1 && (hi1 + hi2)[2..] == hi2;
    Request(DacSet, hi1 + hi2)
  }

  /** A setting within the signed 16-bit range reads back from its two bytes
      as two's complement. */
  lemma DacSetRoundTrip(ch1mV: int, ch2mV: int)
    requires -0x8000 <= ch1mV < 0x8000 && -0x8000 <= ch2mV < 0x8000
    ensures Signed(DacSetRequest(ch1mV, ch2mV).data[..2]) == ch1mV
    ensures Signed(DacSetRequest(ch1mV, ch2mV).data[2..]) == ch2mV
  {
    var d := DacSetRequest(ch1mV, ch2mV).data;
    assert Pow256(2) == 0x10000;
    SignedOfResidue(d[..2], ch1mV);
    SignedOfResidue(d[2..], ch2mV);
  }

  /** `cmd_itb_param_write`: the measurement time is truncated to whole
      seconds and sent in milliseconds, then the truncated dead time; each as
      four bytes `(v >> 8*i) & 0xFF` for i = 3 down to 0. */
  function ParamWrite(p: Params): (r: Request)
    ensures r.reqType == ItbParamWrite && |r.data| == 8
    ensures Unsigned(r.data[..4]) == (Trunc(p.measureTime) * 1000) % U32Range
    ensures Unsigned(r.data[4..]) == Trunc(p.deadTime) % U32Range
  {
    var ms := ToBytes(Trunc(p.measureTime) * 1000, 4);
    var dead := ToBytes(Trunc(p.deadTime), 4);
    UnsignedOfToBytes(Trunc(p.measureTime) * 1000, 4);
    UnsignedOfToBytes(Trunc(p.deadTime), 4);
    assert (ms + dead)[..4] == ms && (ms + dead)[4..] == dead;
    Request(ItbParamWrite, ms + dead)
  }

  /** Decoding a parameter answer that echoes the write gives back the
      written values modulo 2^32; the measurement time keeps only its whole
      seconds. */
  lemma ParamWriteDecode(p: Params)
    ensures DecodeParams(ParamWrite(p).data).measureTime
         == ((Trunc(p.measureTime) * 1000) % U32Range) as real / 1000.0
    ensures DecodeParams(ParamWrite(p).data).deadTime == (Trunc(p.deadTime) % U32Range) as real
  {
    var d := ParamWrite(p).data;
    assert Slice(d, 0, 4) == d[..4];
    assert Slice(d, 4, 8) == d[4..];
  }

  /** Round trip: when both values fit in an unsigned 32-bit word, the
      decoder returns `int(param[0])` and `int(param[1])`. */
  lemma ParamWriteRoundTrip(p: Params)
    requires 0 <= Trunc(p.measureTime) * 1000 < U32Range
    requires 0 <= Trunc(p.deadTime) < U32Range
    ensures DecodeParams(ParamWrite(p).data) == Params(Trunc(p.measureTime) as real, Trunc(p.deadTime) as real)
  {
    var dec := DecodeParams(ParamWrite(p).data);
    var t := Trunc(p.measureTime);
    assert dec.measureTime == t as real by {
      ParamWriteDecode(p);
      DivModUnique(t * 1000, U32Range, 0, t * 1000);
      assert (t * 1000) as real == (t as real) * 1000.0;
    }
    assert dec.deadTime == Trunc(p.deadTime) as real by {
      ParamWriteDecode(p);
      DivModUnique(Trunc(p.deadTime), U32Range, 0, Trunc(p.deadTime));
    }
  }

  /** Writing back parameters just read from the device drops the
      milliseconds of the measurement time: the sent value is the read one
      rounded down to whole seconds. */
  lemma EchoDropsMilliseconds(data: seq<byte>)
    requires |data| >= 4
    ensures Unsigned(ParamWrite(DecodeParams(data)).data[..4]) == (Unsigned(data[..4]) / 1000) * 1000
  {
    var u := Unsigned(data[..4]);
    var q := u / 1000;
    var p := DecodeParams(data);
    assert Trunc(p.measureTime) == q by {
      assert Slice(data, 0, 4) == data[..4];
      TruncOfMilliseconds(u);
    }
    assert (q * 1000) % U32Range == q * 1000 by {
      assert 0 <= q * 1000 <= u < U32Range;
    }
  }

  /** A whole number of milliseconds in seconds truncates to the whole seconds. */
  lemma TruncOfMilliseconds(u: nat)
    ensures Trunc((u as real) / 1000.0) == u / 1000
  {
    var q := u / 1000;
    var t := (u as real) / 1000.0;
    assert u == q * 1000 + u % 1000;
    assert (u as real) == (q as real) * 1000.0 + ((u % 1000) as real);
    assert t == (q as real) + ((u % 1000) as real) / 1000.0;
  }
}
