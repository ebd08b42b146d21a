/** What the device object hands to the display and the log: the
    aggregate redraw status, the per-channel plotting series with their
    legends, the series reset, and the header line of the log file. */
module DeviceViews {
  import opened Text
  import opened Channels
  import opened Decoder

  /** `get_channels_redraw_status`: asks every channel in turn, so every
      flag is cleared (there is no early exit), and answers 1 when any flag
      was set, 0 otherwise. */
  method ChannelsRedrawStatus(dev: Device) returns (r: Device, status: int)
    requires dev.Valid()
    ensures r.Valid() && r.adc == dev.adc && r.param == dev.param
    ensures |r.channels| == |dev.channels|
    ensures forall i :: 0 <= i < |r.channels| ==> r.channels[i] == dev.channels[i].(redraw := false)
    ensures status == 0 || status == 1
    ensures status == 1 <==> exists i :: 0 <= i < |dev.channels| && dev.channels[i].redraw
  {
    var chs := dev.channels;
    status := 0;
    var i := 0;
    while i < |chs|
      invariant 0 <= i <= |chs| == |dev.channels|
      invariant forall j :: 0 <= j < i ==> chs[j] == dev.channels[j].(redraw := false)
      invariant forall j :: i <= j < |chs| ==> chs[j] == dev.channels[j]
      invariant status == 0 || status == 1
      invariant status == 1 <==> exists j :: 0 <= j < i && dev.channels[j].redraw
    {
      var (cleared, due) := GetRedrawStatus(chs[i]);
      if due {
        status := 1;
      }
      chs := chs[i := cleared];
      i := i + 1;
    }
    r := dev.(channels := chs);
  }

  /** Legend of channel n's current series: "K", the channel number, ":"
      and the field name (a Latin K here, unlike the log header). The
      number is written in decimal without leading zeros and reads back as
      the channel number. */
  function Legend(n: nat): (r: string)
    ensures |r| == |Decimal(n)| + 2 + |Labels[1]|
    ensures r[0] == 'K' && r[1 + |Decimal(n)|] == ':' && r[2 + |Decimal(n)|..] == Labels[1]
    ensures ValueOf(r[1..1 + |Decimal(n)|], 10) == n
    ensures forall i :: 1 <= i < 1 + |Decimal(n)| ==> '0' <= r[i] <= '9'
    ensures n > 0 ==> r[1] != '0'
  {
    var r := "K" + Decimal(n) + ":" + Labels[1];
    assert r[1..1 + |Decimal(n)|] == Decimal(n);
    r
  }

  /** Channel 10's legend, as `"K%d:" % 10` writes it. */
  lemma LegendOfTen()
    ensures Legend(10) == "K10:" + Labels[1]
  {
    assert Digits(1, 10) == "1";
    assert Decimal(10) == "10";
  }

  /** `get_channels_graph_data`: for every channel, its time series under
      the time field's name and its current series under its legend. */
  function ChannelsGraphData(dev: Device): (r: seq<(Series, Series)>)
    requires dev.Valid()
    ensures |r| == |dev.channels|
    ensures forall n :: 0 <= n < |r| ==>
      && r[n].0 == Series(Labels[0], dev.channels[n].graph[0])
      && r[n].1 == Series(Legend(n), dev.channels[n].graph[1])
  {
    seq(|dev.channels|, n requires 0 <= n < |dev.channels| =>
      var (times, current) := CurrentGraphData(dev.channels[n]);
      (times, current.(name := Legend(n))))
  }

  /** Different channels get different legends. */
  lemma LegendsDistinct(n: nat, m: nat)
    requires n != m
    ensures Legend(n) != Legend(m)
  {
  }

  /** `reset_channel_graph_data`: empties every channel's series and
      touches nothing else. */
  function ResetChannelGraphData(dev: Device): (r: Device)
    requires dev.Valid()
    ensures r.Valid() && r.adc == dev.adc && r.param == dev.param
    ensures |r.channels| == |dev.channels|
    ensures forall i, k :: 0 <= i < |r.channels| && 0 <= k < FieldCount ==> r.channels[i].graph[k] == []
    ensures forall i :: 0 <= i < |r.channels| ==> r.channels[i].(graph := dev.channels[i].graph) == dev.channels[i]
  {
    dev.(channels := seq(|dev.channels|, i requires 0 <= i < |dev.channels| => ResetGraphData(dev.channels[i])))
  }

  /** The device's own field names (`ITBData.data_name`). */
  const DeviceLabels: seq<string> := ["Время, с", "Напряжение, В", "Потребление, мА", "Температура МК, °С", "U подложки, В"]

  /** Prefix of channel n's columns in the log header. */
  function ColumnPrefix(n: nat): string
  {
    "К" + Decimal(n) + ": "
  }

  /** Channel n's column names. */
  function ChannelColumns(n: nat): (r: seq<string>)
    ensures |r| == FieldCount
    ensures forall k :: 0 <= k < FieldCount ==> r[k] == ColumnPrefix(n) + Labels[k]
  {
    seq(FieldCount, k requires 0 <= k < FieldCount => ColumnPrefix(n) + Labels[k])
  }

  /** The header for `count` channels as `get_log_file_title` builds it:
      the device's names joined by ";" plus a ";", then for each channel in
      turn its prefixed names joined by ";" plus a ";". */
  function TitleOf(count: nat): string
  {
    if count == 0 then Join(DeviceLabels, ";") + ";"
    else TitleOf(count - 1) + Join(ChannelColumns(count - 1), ";") + ";"
  }

  /** `get_log_file_title`: every column name of the device and of its
      channels, each followed by ";". */
  function LogFileTitle(dev: Device): (r: string)
    ensures r == Terminated(Columns(|dev.channels|), ';')
  {
    TitleIsTerminatedColumns(|dev.channels|);
    TitleOf(|dev.channels|)
  }

  /** The column names of a header for `count` channels: the device's five,
      then seven per channel in channel order. */
  function Columns(count: nat): (r: seq<string>)
    ensures |r| == 5 + 7 * count
    ensures r[..5] == DeviceLabels
    ensures forall n :: 0 <= n < count ==> r[5 + 7 * n..5 + 7 * n + 7] == ChannelColumns(n)
  {
    if count == 0 then DeviceLabels
    else
      var pre := Columns(count - 1);
      var r := pre + ChannelColumns(count - 1);
      AppendKeepsSlices(pre, ChannelColumns(count - 1));
      r
  }

  /** Appending keeps every slice of the first part and puts the second
      part right after it. */
  lemma AppendKeepsSlices(pre: seq<string>, last: seq<string>)
    ensures forall a, b :: 0 <= a <= b <= |pre| ==> (pre + last)[a..b] == pre[a..b]
    ensures (pre + last)[|pre|..|pre| + |last|] == last
  {
  }

  /** No column name holds the separator. */
  lemma {:induction false} ColumnsHaveNoSeparator(count: nat)
    ensures forall i :: 0 <= i < |Columns(count)| ==> ';' !in Columns(count)[i]
  {
    LabelsHaveNoSeparator();
    if count > 0 {
      var pre := Columns(count - 1);
      var last := ChannelColumns(count - 1);
      ColumnsHaveNoSeparator(count - 1);
      assert Columns(count) == pre + last;
      assert ';' !in Decimal(count - 1);
      forall k | 0 <= k < FieldCount
        ensures ';' !in last[k]
      {
        assert last[k] == ColumnPrefix(count - 1) + Labels[k];
      }
    }
  }

  lemma LabelsHaveNoSeparator()
    ensures forall i :: 0 <= i < |DeviceLabels| ==> ';' !in DeviceLabels[i]
    ensures forall k :: 0 <= k < |Labels| ==> ';' !in Labels[k]
  {
  }

  /** The header is the column names, each followed by ";". */
  lemma {:induction false} TitleIsTerminatedColumns(count: nat)
    ensures TitleOf(count) == Terminated(Columns(count), ';')
  {
    if count == 0 {
      JoinThenSeparator(DeviceLabels, ';');
    } else {
      TitleIsTerminatedColumns(count - 1);
      TitleStep(TitleOf(count - 1), Columns(count - 1), ChannelColumns(count - 1));
    }
  }

  /** Appending one more joined-and-terminated group to a terminated list
      terminates the concatenated list. */
  lemma TitleStep(a: string, pre: seq<string>, last: seq<string>)
    requires a == Terminated(pre, ';') && |last| > 0
    ensures a + Join(last, ";") + ";" == Terminated(pre + last, ';')
  {
    JoinThenSeparator(last, ';');
    TerminatedAppend(pre, last, ';');
  }

  /** Splitting the header at ";" gives back exactly the column names:
      five for the device and seven for each channel, in order. */
  lemma LogFileTitleColumns(dev: Device)
    ensures SplitTerminated(LogFileTitle(dev), ';') == Columns(|dev.channels|)
    ensures |SplitTerminated(LogFileTitle(dev), ';')| == 5 + 7 * |dev.channels|
  {
    TitleIsTerminatedColumns(|dev.channels|);
    ColumnsHaveNoSeparator(|dev.channels|);
    SplitTerminatedRoundTrip(Columns(|dev.channels|), ';');
  }
}
