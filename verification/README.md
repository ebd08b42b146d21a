# ITB PC client: device data model

This project models the data core of the PC client for the ITB current
measurement instrument. It covers:

- the answer decoder that the device object's background thread runs over
  the serial answer queue;
- the command payloads the device object builds for the serial transport;
- the per-channel buffers of readings and plotting series;
- the views the display and the log file take of them;
- two pure rules of the plotting layout.

Everything is modelled as immutable datatypes and pure functions, with two
exceptions: the channel-by-channel decode loop and the redraw-status loop
are loop methods, each proved equal to its specification.

Modules, in dependency order:

- `Wrappers`: `Option`.
- `Bytes`: big-endian `int.from_bytes` on byte strings of any length
  (unsigned and two's complement) and Python's clamped slices. Also
  `(v >> 8*i) & 0xFF` byte extraction, proved to be the inverse of reading
  back modulo 256^n.
- `Text`: `";".join`, terminated lists and splitting them, decimal and
  hexadecimal digit strings (`"%d"`, `"%04X"`) with their read-back.
- `Parameters`: the measurement parameters, Python's `int()` on a float,
  and decoding the 0x06 answer.
- `Commands`: `cmd_start_measure` with Python's substring test, `cmd_dac_set`
  from whole millivolts, and `cmd_itb_param_write`.
- `Channels`: `ITBChannel`. Covers calibration, readings, series, the redraw
  flag, the append as written, and the capped append it evidently intends.
- `Decoder`: the device state and the three answer decoders (ADC 0x01,
  channel data 0x03, parameters 0x06), with the IndexErrors they raise, and
  the type-byte dispatch.
- `AcquisitionLoop`: `parc_data` as a sequence of ticks. On each tick the
  loop drains the queue, decodes in order, and stops on the close event or
  on an exception.
- `DeviceViews`: `get_channels_redraw_status`, `get_channels_graph_data`,
  `reset_channel_graph_data` and `get_log_file_title`.
- `Helpers`: `value_from_bound` and `list_to_str`.
- `DataGraph`: `line_type_from_index` and the positive/negative split of
  the current series.

Modelling choices that follow the code rather than its comments:

- **Uncaught IndexErrors.** The decoders have no exception handler, so an
  IndexError ends the decoding thread. Such errors are modelled as an
  `Outcome` of `Crashed(device, fault)`. The device is kept as it stood
  when the exception was raised. Two cases:
  - An ADC answer with more than 16 two-byte lines, i.e. 34 bytes or more,
    writes all 16 slots and then fails. A 33-byte answer has 16 lines and
    does not fail.
  - A channel record whose gain byte is 4 or more, or which is missing,
    fails after that channel's time stamp has been written. The channels
    before it are decoded; the later ones are untouched.
- **The series cap is never applied.** `ITBChannel.create_graph_data`
  trims a rebound local name, so every append lengthens every series by
  one. The decode path uses the append as written. The capped append is
  modelled beside it (see Findings).
- **Two different letters K.** The legend prefix of `get_channels_graph_data`
  is a Latin "K". The column prefix of `get_log_file_title` is a Cyrillic
  "К". Both are kept as written.
- **Python operators are written out.** `"%04X"` of a negative value gives a
  minus sign and three padded digits. `int()` truncates toward zero.
  `mode in "stop"` is a substring test, so the empty string and "s" select
  "stop". A negative index counts from the end of a list.

## Model

| member | source | states |
|---|---|---|
| Bytes.ToBytesShifts | itb_data.py:137-138 | byte k of the n-byte encoding is `(v >> 8*(n-1-k)) & 0xFF`, with Python's floor shift for negative v |
| Bytes.UnsignedOfToBytes | itb_data.py:137-138 | the n bytes of v read back big-endian as v modulo 256^n |
| Bytes.ToBytesRoundTrip | itb_data.py:137-138 | a value below 256^n reads back unchanged from its n bytes |
| Bytes.ToBytesOfUnsigned | itb_data.py:137-138 | reading bytes big-endian and splitting the value again at the same width gives back the bytes |
| Bytes.SignedOfResidue | itb_data.py:180-184 | bytes holding v modulo 256^n, for v in the signed n-byte range, read as two's complement give back v |
| Parameters.DecodeParams | itb_data.py:189-191 | the measurement time times 1000 is the big-endian value of the first four bytes, or of all bytes when fewer; the dead time is the big-endian value of bytes 4-7, of bytes 4 onward when the answer has 5 to 7 bytes, and 0 when it has at most 4; for an 8-byte answer both are spelled out digit by digit and stay in the u32 range |
| Parameters.Trunc | itb_data.py:135-136 | `int()` of a float: the integer part, truncated toward zero, for either sign |
| Commands.InStrIff | itb_data.py:116-120 | the recursive substring test holds exactly when the needle occurs at some position of the text |
| Commands.StartMeasure | itb_data.py:115-121 | mode byte 0x00 exactly when the mode occurs in "stop", 0x02 exactly when not in "stop" but in "single", 0x01 exactly when in neither but in "cycle", and no request exactly when it occurs in none of the three (always for modes longer than six characters) |
| Commands.StartMeasureModes | itb_data.py:115-121 | "stop", "single" and "cycle" select 0x00, 0x02 and 0x01; "s" and "" select stop, "e" single, "c" cycle, "x" nothing |
| Commands.DacSetRequest | itb_data.py:126-131 | four bytes: high then low byte of each channel's millivolts, each pair reading back big-endian as the value modulo 65536 |
| Commands.DacSetRoundTrip | itb_data.py:126-131 | settings in the signed 16-bit range read back from their byte pairs, as two's complement, unchanged |
| Commands.ParamWrite | itb_data.py:133-141 | eight bytes: the big-endian u32 of the truncated measurement time in milliseconds, then the u32 of the truncated dead time, each modulo 2^32 |
| Commands.ParamWriteDecode | itb_data.py:133-141 | decoding the written payload as a 0x06 answer gives each written value modulo 2^32, the time back in seconds |
| Commands.ParamWriteRoundTrip | itb_data.py:133-141 | when both values fit in a u32, decoding the write gives back `int(param[0])` and `int(param[1])` |
| Commands.EchoDropsMilliseconds | itb_data.py:135 | writing back parameters just decoded sends the measurement time rounded down to whole seconds |
| Channels.Calibrate | itb_data.py:180 | a raw value of 0 calibrates to the gain's offset `cal_b`, and with the identity pair (1, 0) every raw value calibrates to itself |
| Channels.CalibrateAffine | itb_data.py:180 | the calibration is affine: two raw values at the same gain differ after calibration by `cal_a` times their difference |
| Channels.NewChannel | itb_data.py:245-259 | a fresh channel calibrates every raw value to itself at every gain, reads all zero, has seven empty series and no redraw due |
| Channels.CreateGraphData | itb_data.py:261-272 | sets the redraw flag and extends every series by exactly the current reading's field, keeping the old values and the calibration |
| Channels.FeedHistory | itb_data.py:261-271 | as written, decoding readings into a channel one by one leaves in series k its old values followed by field k of every reading, in arrival order, none dropped |
| Channels.FeedCurrentGraphData | itb_data.py:274-275 | for a channel whose time and current series started empty, the plotted pair after any number of decoded readings is the time stamps and the calibrated currents of all of them, in arrival order, under the two fields' names |
| Channels.CurrentGraphDataAfterAppend | itb_data.py:261-275 | after an append the plotted pair is the old time and current series, each extended by the stored reading's time stamp and calibrated current |
| Channels.AppendTimesGrows | itb_data.py:264-271 | n appends lengthen every series by exactly n, with no bound |
| Channels.CapNotApplied | itb_data.py:257 | after 1001 appends a fresh channel's series holds 1001 values, more than the intended maximum of 1000 |
| Channels.GetRedrawStatus | itb_data.py:277-282 | answers the flag and clears it; nothing else changes |
| Channels.RedrawReportedOnce | itb_data.py:263 | after one or more appends the status reads true once and false on the read straight after |
| Channels.ResetGraphData | itb_data.py:284-286 | every series is empty; the reading, calibration and redraw flag are unchanged |
| Channels.ResetThenAppend | itb_data.py:261-286 | an append after a reset leaves exactly the current reading in each series |
| Channels.CreateGraphDataCapped | itb_data.py:266-271 | the intended append: each series becomes the last 1000 values of the old series plus the new one |
| Channels.CappedHistoryIsSuffix | itb_data.py:266-271 | feeding values one by one through the capped append leaves exactly the last min(N, cap) values fed, in order |
| Channels.FeedCappedFifo | itb_data.py:261-271 | storing readings one by one with the capped append leaves in an initially empty series exactly the last min(N, 1000) values of that field, in arrival order |
| Channels.CappedKeepsBound | itb_data.py:257 | after 1001 capped appends the series holds 1000 values, starting at the second one fed |
| Decoder.NewDevice | itb_data.py:43-54 | a new device has 16 zero ADC slots, parameters (1.0, 100), and the requested number of fresh channels |
| Decoder.ParseAdc | itb_data.py:158-161 | slot i takes the big-endian u16 of bytes 2i and 2i+1 for i below len/2, the other slots keep their values, and the decode raises exactly when len/2 exceeds 16 |
| Decoder.ByteField | itb_data.py:181 | the signed byte at an offset of the 8-byte slice, or 0 when the slice ends before it |
| Decoder.WordField | itb_data.py:182-184 | the signed big-endian word at an offset of the slice; a single signed byte when the slice ends inside the word; 0 when it ends before it |
| Decoder.RecordReading | itb_data.py:178-185 | the reading takes the clock, the gain byte, and the current calibrated with that gain's pair from the raw current; for each field, by the record's length, the signed temperature byte, and the signed current, signal and zero words, or what their clamped slices hold |
| Decoder.DecodeRecord | itb_data.py:177-187 | the channel stores the record's reading, every series gets that reading appended, a redraw is due, and the calibration is kept |
| Decoder.ParseChannelData | itb_data.py:176-187 | the decode completes exactly when every channel's record has a gain byte below 4; otherwise the fault names the first bad channel, the channels before it are decoded, it is stamped, and the rest are untouched |
| Decoder.ParseChannelDataDecodesAll | itb_data.py:176-187 | when every record is good, every channel holds its own record decoded |
| Decoder.FirstBadUnique | itb_data.py:177 | the channel that fails is the one preceded by good records only that is bad itself |
| Decoder.DecodeChannels | itb_data.py:176-187 | the channel-by-channel loop, stopping at the first raising record, computes the same outcome as the specification |
| Decoder.ProcessFrame | itb_data.py:157-166 | type 0x01 decodes ADC lines, 0x03 channel data, 0x06 parameters; any other type leaves the device unchanged |
| AcquisitionLoop.ProcessAllAppend | itb_data.py:157-166 | decoding two queues in turn is decoding their concatenation, stopping at the first exception |
| AcquisitionLoop.ProcessAllSnoc | itb_data.py:157-166 | decoding a queue with one more answer at its end is decoding the queue and then that answer on the device it left, unless an earlier decode raised |
| AcquisitionLoop.UnknownFramesIgnored | itb_data.py:157-166 | dropping the answers of unknown type from the queue does not change the outcome |
| AcquisitionLoop.Tick | itb_data.py:149-169 | one pass empties the queue and decodes everything drained in order; an exception ends the thread, a set close event ends it and is cleared; an ended thread changes nothing but the queue |
| AcquisitionLoop.RunSnoc | itb_data.py:149-169 | a run one tick longer is the run followed by that one pass of the loop |
| AcquisitionLoop.RunHalted | itb_data.py:149-169 | once the thread has ended, the device and status never change and every later frame stays queued |
| AcquisitionLoop.RunIsSequentialProcessing | itb_data.py:150-166 | without a close request a run decodes every queued frame exactly once, in queue order, and stays alive exactly when no decode raised |
| AcquisitionLoop.RunStopsAtClose | itb_data.py:167-169 | the tick that sees a close request ends the thread after decoding everything queued up to it; later frames stay queued |
| DeviceViews.ChannelsRedrawStatus | itb_data.py:213-220 | every channel's flag is cleared, nothing else changes, and the answer is 1 exactly when some flag was set, 0 otherwise |
| DeviceViews.ChannelsGraphData | itb_data.py:205-211 | one pair per channel: its time series under the time field's name and its current series under the legend "K<n>:" + the current field's name |
| DeviceViews.Legend | itb_data.py:209 | the legend of channel n is "K", the decimal digits of n reading back as n, ":", then the current field's name |
| DeviceViews.LegendsDistinct | itb_data.py:209 | different channels get different legends |
| DeviceViews.ResetChannelGraphData | itb_data.py:239-242 | every series of every channel is empty and nothing else changes |
| DeviceViews.Columns | itb_data.py:222-226 | the header's columns: the five device field names, then for channel n its seven field names prefixed "К<n>: " |
| DeviceViews.LogFileTitle | itb_data.py:222-226 | the header of a device is its column names, each followed by ";" |
| DeviceViews.TitleIsTerminatedColumns | itb_data.py:222-226 | the header is the column names, each followed by ";" |
| DeviceViews.LogFileTitleColumns | itb_data.py:222-226 | splitting the header at ";" gives back exactly the column names, 5 + 7 per channel of them |
| Text.SplitTerminatedRoundTrip | itb_data.py:223-225 | splitting terminated fields, none of which holds the terminator, gives back the fields |
| Text.DigitsRoundTrip | itb_data.py:209 | the digit string of n in base 2 to 16 reads back as n |
| Text.Hex04 | itb_data.py:294 | `"%04X"`: a non-negative value gives at least four hexadecimal digit characters that read back as it, exactly four in 0..65535; a negative value gives "-" and at least three zero-padded hexadecimal digits of its magnitude, four characters in all above -4096; digits beyond the padding width never start with 0 |
| Helpers.ValueFromBound | itb_data.py:289-290 | with lo <= hi the result lies in [lo, hi], equals the value when the value is in range, and is the nearer bound otherwise; with lo > hi it is lo |
| Helpers.ValueFromBoundIdempotent | itb_data.py:289-290 | clamping twice clamps once |
| Helpers.ListToStr | itb_data.py:293-295 | the dump is empty exactly when the list is |
| Helpers.ListToStrSlots | itb_data.py:293-295 | for 16-bit items the dump is 6n-1 characters, and characters 6i to 6i+3 are hexadecimal digits that read back as item i, followed by that cell's space and, except after the last item, the joining space, so cells are separated by two spaces |
| DataGraph.PyIndex | data_graph.py:97-98 | Python list indexing: a negative index counts from the end, and an index outside both ranges raises |
| DataGraph.LineTypeFromIndex | data_graph.py:93-101 | for 0 <= n < 28 the style is n//7 and the colour n%7; for -28 <= n < 0 both wrap from the end; outside that range the result is "-r" |
| DataGraph.LineTypeRoundTrip | data_graph.py:93-99 | the line type of curve n in 0..27 reads back to n |
| DataGraph.LineTypeInjective | data_graph.py:93-99 | the first 28 curves get pairwise different line types |
| DataGraph.LineTypeBlocks | data_graph.py:93-99 | within a block of seven curves the style is shared and the colours differ; curve 0 is "-r" |
| DataGraph.LineTypeNegative | data_graph.py:93-101 | indices -28 to -1 repeat the line types of 0 to 27, and 28 to 55 fall back to curve 0's |
| DataGraph.SplitCurrent | data_graph.py:42-52 | a current at or below -1e-12 gives its magnitude to the negative curve, one at or above 1e-12 leaves both copies, one in between puts 1e-12 in both |
| DataGraph.SplitCurrentEnvelope | data_graph.py:42-52 | the larger of the two entries is the current's magnitude, floored at 1e-12 |
| DataGraph.SignSplit | data_graph.py:42-52 | both outputs have the input's shape, and each entry is the split of the current at that position |
| DataGraph.PositiveCurrentOnNegativeCurve | data_graph.py:48-49 | as written, a current of 1 puts 1 on the negative curve, above the axis floor |
| DataGraph.SplitCurrentIntendedSign | data_graph.py:42-52 | with the intended split, a current of magnitude at least 1e-12 is drawn above zero on exactly the curve of its sign, and the envelope is kept |
| DataGraph.SignSplitIntended | data_graph.py:42-52 | the intended loop keeps the input's shape and draws each current on the curve of its sign only |

## Left out

- main.py, the Qt window: timers, tables, file dialogs, log-file creation
  and its configuration file. It only forwards to the device object.
- Threads, the close `Event`, the locks and `time.sleep`. One tick of the
  decoding thread is one sequential step. Frames the transport queues
  during a tick are part of that tick's input.
- `time.perf_counter`. The source reads the clock once per channel; the
  model takes one clock reading per tick for every channel it decodes.
  The readings are inputs, and their values are never constrained.
- The serial transport (`itb_serial`, `serial.request`). Each command
  builder returns the request it would submit.
- Configuration persistence (`get_cfg`, `set_cfg`, `save_conf_to_file`,
  `load_conf_from_file`). It is text formatting through `configparser`
  with `"%.3E"` floats and file I/O.
- `get_log_file_data`. It formats floats with `"%.2g"` and `"%.3g"`, which
  needs floating-point text formatting.
- `cmd_get_adc_data`, `cmd_read_chan_data`, `cmd_itb_param_read` and
  `cmd_dbg_start`. Each forwards a fixed request type and its arguments
  to the transport, with no logic of its own.
- Commands.DacSetRequest: starts from whole millivolts. The float step
  `int(V*1000)` is not modelled, because it needs binary floating point.
- `ITBData.create_graph_data` and `ITBData.reset_graph_data`. Nothing
  calls them. The first indexes into empty lists and cannot run.
- `parc_adc_data`, an empty stub.
- The keyword-option parsing of the constructor and the unused channel
  fields set to 1E-8.
- List aliasing. `param` is the same list object as `param_default`, and
  Python lists are shared by reference. The model has values only.
- The matplotlib drawing and `plot_osc_dnt`.
- Channels.CreateGraphData: the stored values are `float(data[k])`. The
  model keeps the integer fields as exact reals, so conversions of integers
  beyond 2^53 are not rounded.
- Parameters.DecodeParams: the measurement time `u / 1000` is the exact
  quotient, not the binary64 one, so the model does not round. For every
  u below 2^32, `int()` of the binary64 quotient is still `u // 1000`: the
  rounding error is below 2^-31, and a non-integer quotient lies at least
  1/1000 from the next integer. So Commands.EchoDropsMilliseconds carries
  over to the float code, by this argument outside the model.
- Parameters.Trunc: truncates an exact real; the floats it meets in the
  source are binary64 values, and their rounding is not modelled.
- Decoder.DecodeRecord: the calibrated current `cal_a[g]*raw + cal_b[g]`
  is exact real arithmetic, not binary floating point.
- DataGraph.SplitCurrent: the currents and the threshold `1E-12` are exact
  reals, not binary64 values. The binary64 `1E-12` lies just below
  10^-12, so a current of exactly that double (or its negation) takes the
  outer branch in the source and the middle branch in the model. The same
  holds for DataGraph.SignSplit and the intended split.

## Findings

| source | as written | input that shows it | evidently intended | confidence | as-written member | corrected member |
|---|---|---|---|---|---|---|
| itb_data.py:267-271 | the trimming loop rebinds the local name `var`, so the stored series is never shortened and grows by one value per append without bound | 1001 appends to a fresh channel leave 1001 values in every series | each series keeps at most `graph_data_max_len` = 1000 values, dropping the oldest first | high, not executed | Channels.CapNotApplied | Channels.FeedCappedFifo |
| data_graph.py:48-49 | a positive current is written to the positive curve and also stays, unchanged, in the negative curve's copy | a current of 1.0 puts 1.0 on the "-" curve, which the logarithmic axis draws | a positive current shows only on the "+" curve and a negative one only on the "-" curve | medium, not executed | DataGraph.PositiveCurrentOnNegativeCurve | DataGraph.SplitCurrentIntendedSign |
