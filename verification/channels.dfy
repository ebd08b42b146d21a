/** One measurement channel (`ITBChannel`): its calibration table, its latest
    decoded reading, one plotting series per reading field, and the flag that
    tells the display a redraw is due. */
module Channels {

  /** Number of reading fields, and so of plotting series. */
  const FieldCount := 7

  /** Number of gain settings, and so of calibration pairs. */
  const GainCount := 4

  /** The series length the source sets out to keep (`graph_data_max_len`). */
  const GraphMaxLen := 1000

  /** Field names, in field order (`data_name`). */
  const Labels: seq<string> := ["Время, с", "I, А", "Т,°С", "Ток,кв.", "Сигнал,кв.", "Ноль,кв.", "КУ"]

  /** `data`: time stamp, calibrated current, temperature, the three raw
      ADC readings and the gain code, in this order. */
  datatype Reading = Reading(time: real, current: real, temperature: int,
                             currentRaw: int, signalRaw: int, zeroRaw: int, gain: int)
  {
    /** The reading as the list of floats the series receive (`float(data[k])`). */
    function Row(): (r: seq<real>)
      ensures |r| == FieldCount
      ensures r[0] == time && r[1] == current && r[2] == temperature as real
      ensures r[3] == currentRaw as real && r[4] == signalRaw as real
      ensures r[5] == zeroRaw as real && r[6] == gain as real
    {
      [time, current, temperature as real, currentRaw as real, signalRaw as real,
       zeroRaw as real, gain as real]
    }
  }

  /** The reading a channel starts with: every field 0. */
  const ZeroReading := Reading(0.0, 0.0, 0, 0, 0, 0, 0)

  /** `calA[g]`, `calB[g]` are the linear calibration for gain code g. */
  datatype Channel = Channel(calA: seq<real>, calB: seq<real>, data: Reading,
                             graph: seq<seq<real>>, redraw: bool)
  {
    /** Shape invariant every channel keeps: four calibration pairs and
        one series per field. */
    predicate Valid()
    {
      |calA| == GainCount && |calB| == GainCount && |graph| == FieldCount
    }
  }

  /** The calibrated current for a raw reading at gain code g. */
  function Calibrate(c: Channel, g: nat, raw: int): (r: real)
    requires c.Valid() && g < GainCount
    ensures raw == 0 ==> r == c.calB[g]
    ensures c.calA[g] == 1.0 && c.calB[g] == 0.0 ==> r == raw as real
  {
    c.calA[g] * raw as real + c.calB[g]
  }

  /** The calibration is affine: the difference of two calibrated values
      is the slope times the difference of the raw readings. */
  lemma CalibrateAffine(c: Channel, g: nat, x: int, y: int)
    requires c.Valid() && g < GainCount
    ensures Calibrate(c, g, x) - Calibrate(c, g, y) == c.calA[g] * (x - y) as real
  {
  }

  /** A fresh channel (`ITBChannel.__init__`): identity calibration at every
      gain, zero reading, empty series, no redraw pending. */
  function NewChannel(): (c: Channel)
    ensures c.Valid() && !c.redraw && c.data == ZeroReading
    ensures forall g, raw :: 0 <= g < GainCount ==> Calibrate(c, g, raw) == raw as real
    ensures forall k :: 0 <= k < FieldCount ==> c.graph[k] == []
  {
    Channel([1.0, 1.0, 1.0, 1.0], [0.0, 0.0, 0.0, 0.0], ZeroReading,
            seq(FieldCount, _ => []), false)
  }

  /** `create_graph_data` as written: marks a redraw and appends the current
      reading to every series. The trimming loop that follows rebinds only
      a local name, so the stored series is never shortened. */
  function CreateGraphData(c: Channel): (r: Channel)
    requires c.Valid()
    ensures r.Valid() && r.redraw
    ensures r.calA == c.calA && r.calB == c.calB && r.data == c.data
    ensures forall k :: 0 <= k < FieldCount ==>
      |r.graph[k]| == |c.graph[k]| + 1 && r.graph[k][..|c.graph[k]|] == c.graph[k]
      && r.graph[k][|c.graph[k]|] == c.data.Row()[k]
  {
    var row := c.data.Row();
    c.(redraw := true,
       graph := seq(FieldCount, k requires 0 <= k < FieldCount => c.graph[k] + [row[k]]))
  }

  /** `get_redraw_status`: reports whether a redraw is due and clears the
      flag; nothing else changes. */
  function GetRedrawStatus(c: Channel): (r: (Channel, bool))
    ensures r.1 == c.redraw
    ensures !r.0.redraw && r.0.(redraw := c.redraw) == c
  {
    (c.(redraw := false), c.redraw)
  }

  /** `reset_graph_data`: every series becomes empty; the reading, the
      calibration and the redraw flag stay as they were. */
  function ResetGraphData(c: Channel): (r: Channel)
    requires c.Valid()
    ensures r.Valid()
    ensures forall k :: 0 <= k < FieldCount ==> r.graph[k] == []
    ensures r.(graph := c.graph) == c
  {
    c.(graph := seq(FieldCount, _ => []))
  }

  /** A labelled series handed to the plotting code. */
  datatype Series = Series(name: string, values: seq<real>)

  /** `get_current_graph_data`: the time series and the current series with
      their field names. */
  function CurrentGraphData(c: Channel): (r: (Series, Series))
    requires c.Valid()
    ensures r.0 == Series(Labels[0], c.graph[0]) && r.1 == Series(Labels[1], c.graph[1])
  {
    (Series(Labels[0], c.graph[0]), Series(Labels[1], c.graph[1]))
  }

  /** After an append the plotted pair ends with the reading just stored:
      its time stamp and its calibrated current. */
  lemma CurrentGraphDataAfterAppend(c: Channel)
    requires c.Valid()
    ensures CurrentGraphData(CreateGraphData(c)).0.values == c.graph[0] + [c.data.time]
    ensures CurrentGraphData(CreateGraphData(c)).1.values == c.graph[1] + [c.data.current]
  {
    var r := CreateGraphData(c);
    assert r.graph[0] == r.graph[0][..|c.graph[0]|] + [r.graph[0][|c.graph[0]|]];
    assert r.graph[1] == r.graph[1][..|c.graph[1]|] + [r.graph[1][|c.graph[1]|]];
  }

  /** n successive calls of `create_graph_data`. */
  function AppendTimes(c: Channel, n: nat): (r: Channel)
    requires c.Valid()
    ensures r.Valid()
    decreases n
  {
    if n == 0 then c else CreateGraphData(AppendTimes(c, n - 1))
  }

  /** As written, every append lengthens every series by one, with no bound. */
  lemma {:induction false} AppendTimesGrows(c: Channel, n: nat)
    requires c.Valid()
    ensures forall k :: 0 <= k < FieldCount ==> |AppendTimes(c, n).graph[k]| == |c.graph[k]| + n
    decreases n
  {
    if n > 0 {
      AppendTimesGrows(c, n - 1);
    }
  }

  /** The intended bound does not hold: a fresh channel holds 1001 values
      per series after 1001 appends. */
  lemma CapNotApplied()
    ensures |AppendTimes(NewChannel(), GraphMaxLen + 1).graph[0]| == GraphMaxLen + 1
    ensures |AppendTimes(NewChannel(), GraphMaxLen + 1).graph[0]| > GraphMaxLen
  {
    AppendTimesGrows(NewChannel(), GraphMaxLen + 1);
  }

  /** A redraw flag raised by any number (at least one) of appends is
      reported exactly once: the first status read returns true, a second
      read straight after returns false. */
  lemma RedrawReportedOnce(c: Channel, n: nat)
    requires c.Valid() && n >= 1
    ensures GetRedrawStatus(AppendTimes(c, n)).1
    ensures !GetRedrawStatus(GetRedrawStatus(AppendTimes(c, n)).0).1
  {
  }

  /** After a reset, the next append leaves exactly the current reading in
      every series. */
  lemma ResetThenAppend(c: Channel)
    requires c.Valid()
    ensures forall k :: 0 <= k < FieldCount ==>
      CreateGraphData(ResetGraphData(c)).graph[k] == [c.data.Row()[k]]
  {
  }

  /** The last `cap` elements of `s` (all of it when shorter): what the
      trimming loop `while len(var) > cap: var = var[1:]` leaves. */
  function KeepLast<T>(s: seq<T>, cap: nat): (r: seq<T>)
    ensures |r| == if |s| < cap then |s| else cap
    ensures forall i :: 0 <= i < |r| ==> r[i] == s[|s| - |r| + i]
  {
    if |s| > cap then s[|s| - cap..] else s
  }

  /** The append the source evidently intends: append, then drop the oldest
      values until the series holds at most `GraphMaxLen`. */
  function CreateGraphDataCapped(c: Channel): (r: Channel)
    requires c.Valid()
    ensures r.Valid() && r.redraw
    ensures r.calA == c.calA && r.calB == c.calB && r.data == c.data
    ensures forall k :: 0 <= k < FieldCount ==>
      r.graph[k] == KeepLast(c.graph[k] + [c.data.Row()[k]], GraphMaxLen)
  {
    var row := c.data.Row();
    c.(redraw := true,
       graph := seq(FieldCount, k requires 0 <= k < FieldCount =>
                                  KeepLast(c.graph[k] + [row[k]], GraphMaxLen)))
  }

  /** One series fed a sequence of values through the capped append. */
  function CappedHistory(xs: seq<real>, cap: nat): seq<real>
  {
    if |xs| == 0 then [] else KeepLast(CappedHistory(xs[..|xs| - 1], cap) + [xs[|xs| - 1]], cap)
  }

  /** Trimming before or after an append gives the same series. */
  lemma KeepLastSnoc(s: seq<real>, x: real, cap: nat)
    ensures KeepLast(KeepLast(s, cap) + [x], cap) == KeepLast(s + [x], cap)
  {
    if cap > 0 && |s| >= cap {
      assert KeepLast(s, cap) == s[|s| - cap..];
      assert (s[|s| - cap..] + [x])[1..] == s[|s| - cap + 1..] + [x];
      assert (s + [x])[|s| + 1 - cap..] == s[|s| - cap + 1..] + [x];
    }
  }

  /** The last value fed is appended to the history of the others. */
  lemma CappedStep(xs: seq<real>, cap: nat)
    requires |xs| > 0
    ensures CappedHistory(xs, cap) == KeepLast(CappedHistory(xs[..|xs| - 1], cap) + [xs[|xs| - 1]], cap)
  {
  }

  /** FIFO law of the capped append: after feeding N values the series has
      min(N, cap) elements, and they are the last ones fed, in order. */
  lemma {:induction false} CappedHistoryIsSuffix(xs: seq<real>, cap: nat)
    ensures CappedHistory(xs, cap) == KeepLast(xs, cap)
  {
    if |xs| > 0 {
      var pre := xs[..|xs| - 1];
      var x := xs[|xs| - 1];
      assert pre + [x] == xs;
      calc {
        CappedHistory(xs, cap);
        == { CappedStep(xs, cap); }
        KeepLast(CappedHistory(pre, cap) + [x], cap);
        == { CappedHistoryIsSuffix(pre, cap); }
        KeepLast(KeepLast(pre, cap) + [x], cap);
        == { KeepLastSnoc(pre, x, cap); }
        KeepLast(pre + [x], cap);
      }
    }
  }

  /** Field k of each reading, in order. */
  function FieldSeries(rs: seq<Reading>, k: nat): (r: seq<real>)
    requires k < FieldCount
    ensures |r| == |rs|
    ensures forall i :: 0 <= i < |rs| ==> r[i] == rs[i].Row()[k]
  {
    seq(|rs|, i requires 0 <= i < |rs| => rs[i].Row()[k])
  }

  /** A channel that stores each reading in turn and appends it with
      `create_graph_data` as written, as the decoder does. */
  function Feed(c: Channel, rs: seq<Reading>): (r: Channel)
    requires c.Valid()
    ensures r.Valid()
    decreases |rs|
  {
    if |rs| == 0 then c
    else CreateGraphData(Feed(c, rs[..|rs| - 1]).(data := rs[|rs| - 1]))
  }

  /** As written, series k after feeding is its old contents followed by
      field k of every reading fed, in order, nothing dropped. */
  lemma {:induction false} FeedHistory(c: Channel, rs: seq<Reading>, k: nat)
    requires c.Valid() && k < FieldCount
    ensures Feed(c, rs).graph[k] == c.graph[k] + FieldSeries(rs, k)
    decreases |rs|
  {
    if |rs| == 0 {
      assert FieldSeries(rs, k) == [];
    } else {
      var pre := rs[..|rs| - 1];
      FeedHistory(c, pre, k);
      var before := Feed(c, pre).(data := rs[|rs| - 1]);
      var after := CreateGraphData(before);
      assert FieldSeries(rs, k) == FieldSeries(pre, k) + [rs[|rs| - 1].Row()[k]];
      assert after.graph[k] == before.graph[k] + [rs[|rs| - 1].Row()[k]];
    }
  }

  /** `get_current_graph_data` after readings were decoded into a channel
      whose time and current series started empty: the time stamps and the
      calibrated currents of all those readings, in arrival order, under
      the two fields' names. */
  lemma FeedCurrentGraphData(c: Channel, rs: seq<Reading>)
    requires c.Valid() && c.graph[0] == [] && c.graph[1] == []
    ensures CurrentGraphData(Feed(c, rs)).0 == Series(Labels[0], FieldSeries(rs, 0))
    ensures CurrentGraphData(Feed(c, rs)).1 == Series(Labels[1], FieldSeries(rs, 1))
    ensures forall i :: 0 <= i < |rs| ==>
      CurrentGraphData(Feed(c, rs)).0.values[i] == rs[i].time
      && CurrentGraphData(Feed(c, rs)).1.values[i] == rs[i].current
  {
    FeedHistory(c, rs, 0);
    FeedHistory(c, rs, 1);
  }

  /** A channel that stores each reading in turn and appends it with the
      capped append, as the decoder would with the intended cap. */
  function FeedCapped(c: Channel, rs: seq<Reading>): (r: Channel)
    requires c.Valid()
    ensures r.Valid()
    decreases |rs|
  {
    if |rs| == 0 then c
    else CreateGraphDataCapped(FeedCapped(c, rs[..|rs| - 1]).(data := rs[|rs| - 1]))
  }

  /** The FIFO law for the capped append on a channel: starting from an
      empty series, feeding readings leaves in series k the field-k values
      of the last (at most) 1000 readings, in order. */
  lemma {:induction false} FeedCappedFifo(c: Channel, rs: seq<Reading>, k: nat)
    requires c.Valid() && k < FieldCount && c.graph[k] == []
    ensures FeedCapped(c, rs).graph[k] == CappedHistory(FieldSeries(rs, k), GraphMaxLen)
    ensures FeedCapped(c, rs).graph[k] == KeepLast(FieldSeries(rs, k), GraphMaxLen)
    decreases |rs|
  {
    var xs := FieldSeries(rs, k);
    if |rs| > 0 {
      var pre := rs[..|rs| - 1];
      FeedCappedFifo(c, pre, k);
      assert xs[..|xs| - 1] == FieldSeries(pre, k);
    }
    CappedHistoryIsSuffix(xs, GraphMaxLen);
  }

  /** Feeding 1001 values through the capped append keeps 1000 of them,
      the oldest one dropped. */
  lemma CappedKeepsBound(xs: seq<real>)
    requires |xs| == GraphMaxLen + 1
    ensures |CappedHistory(xs, GraphMaxLen)| == GraphMaxLen
    ensures CappedHistory(xs, GraphMaxLen)[0] == xs[1]
  {
    CappedHistoryIsSuffix(xs, GraphMaxLen);
  }
}
