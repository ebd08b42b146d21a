/** The decoding thread (`ITBData.parc_data`): on every tick it takes the
    whole answer queue the transport has filled, empties it, decodes the
    answers in queue order, and then ends if the close event is set,
    clearing it. An exception raised by a decoder ends the thread instead.
    The lock, the sleep and the thread itself are not modelled: one tick is
    one sequential step, and the clock reading the channel decoder stores is
    an input of the tick. */
module AcquisitionLoop {
  import opened Decoder

  /** An answer frame with the clock reading its decoding stores. */
  datatype Arrival = Arrival(frame: Frame, at: real)

  /** Decodes the arrivals in order; the first exception ends the decoding,
      with the state as it stood then. */
  function ProcessAll(dev: Device, xs: seq<Arrival>): (r: Outcome)
    requires dev.Valid()
    ensures r.dev.Valid() && |r.dev.channels| == |dev.channels|
    ensures |xs| == 0 ==> r == Done(dev)
    decreases |xs|
  {
    if |xs| == 0 then Done(dev)
    else
      var o := ProcessFrame(dev, xs[0].frame, xs[0].at);
      if o.Crashed? then o else ProcessAll(o.dev, xs[1..])
  }

  /** Decoding a concatenation decodes the first part and, unless that
      raised, continues with the second part from where it left off. */
  lemma {:induction false} ProcessAllAppend(dev: Device, xs: seq<Arrival>, ys: seq<Arrival>)
    requires dev.Valid()
    ensures var o := ProcessAll(dev, xs);
      ProcessAll(dev, xs + ys) == if o.Crashed? then o else ProcessAll(o.dev, ys)
    decreases |xs|
  {
    if |xs| == 0 {
      assert xs + ys == ys;
    } else {
      var o := ProcessFrame(dev, xs[0].frame, xs[0].at);
      assert (xs + ys)[0] == xs[0];
      assert (xs + ys)[1..] == xs[1..] + ys;
      if o.Done? {
        ProcessAllAppend(o.dev, xs[1..], ys);
      }
    }
  }

  /** The answer types the dispatcher acts on. */
  predicate Known(f: Frame)
  {
    f.kind == AdcFrame || f.kind == ChannelFrame || f.kind == ParamFrame
  }

  /** The arrivals of a known type, in their order. */
  function KnownOnly(xs: seq<Arrival>): (r: seq<Arrival>)
    ensures |r| <= |xs|
    ensures forall i :: 0 <= i < |r| ==> Known(r[i].frame)
    decreases |xs|
  {
    if |xs| == 0 then []
    else if Known(xs[0].frame) then [xs[0]] + KnownOnly(xs[1..])
    else KnownOnly(xs[1..])
  }

  /** Answers of any other type change nothing: dropping them from the
      queue gives the same outcome. */
  lemma {:induction false} UnknownFramesIgnored(dev: Device, xs: seq<Arrival>)
    requires dev.Valid()
    ensures ProcessAll(dev, KnownOnly(xs)) == ProcessAll(dev, xs)
    decreases |xs|
  {
    if |xs| > 0 {
      var o := ProcessFrame(dev, xs[0].frame, xs[0].at);
      if Known(xs[0].frame) {
        var k := [xs[0]] + KnownOnly(xs[1..]);
        assert k[0] == xs[0] && k[1..] == KnownOnly(xs[1..]);
        if o.Done? {
          UnknownFramesIgnored(o.dev, xs[1..]);
        }
      } else {
        UnknownFramesIgnored(dev, xs[1..]);
      }
    }
  }

  /** The frames of one drain, all decoded with the tick's clock reading. */
  function Stamp(frames: seq<Frame>, now: real): (r: seq<Arrival>)
    ensures |r| == |frames|
    ensures forall i :: 0 <= i < |r| ==> r[i].frame == frames[i] && r[i].at == now
  {
    seq(|frames|, i requires 0 <= i < |frames| => Arrival(frames[i], now))
  }

  /** How the thread stands: still looping, ended by the close event, or
      ended by an exception. */
  datatype Status = Running | Stopped | Died(fault: Fault)

  /** The answer queue (`serial.answer_data`), the close event, the device
      and the thread's status. */
  datatype Loop = Loop(answers: seq<Frame>, closeEvent: bool, dev: Device, status: Status)

  /** What happens around one tick: the frames the transport queued since
      the last drain, whether the close event was set before the check, and
      the clock reading. */
  datatype TickInput = TickInput(arrived: seq<Frame>, close: bool, now: real)

  /** A loop that has just started: empty queue, no close request. */
  predicate Fresh(s: Loop)
  {
    s.answers == [] && !s.closeEvent && s.status.Running? && s.dev.Valid()
  }

  /** One pass of the `while True` body. Once the thread has ended, frames
      keep queueing and nothing else moves. */
  function Tick(s: Loop, t: TickInput): (r: Loop)
    requires s.dev.Valid()
    ensures r.dev.Valid() && |r.dev.channels| == |s.dev.channels|
    ensures s.status.Running? ==> r.answers == []
    ensures s.status.Running? ==>
      var o := ProcessAll(s.dev, Stamp(s.answers + t.arrived, t.now));
      && r.dev == o.dev
      && (o.Crashed? ==> r.status == Died(o.fault))
      && (o.Done? && (s.closeEvent || t.close) ==> r.status == Stopped && !r.closeEvent)
      && (o.Done? && !(s.closeEvent || t.close) ==> Fresh(r))
    ensures !s.status.Running? ==>
      r == s.(answers := s.answers + t.arrived, closeEvent := s.closeEvent || t.close)
  {
    var close := s.closeEvent || t.close;
    if !s.status.Running? then s.(answers := s.answers + t.arrived, closeEvent := close)
    else
      var o := ProcessAll(s.dev, Stamp(s.answers + t.arrived, t.now));
      if o.Crashed? then Loop([], close, o.dev, Died(o.fault))
      else if close then Loop([], false, o.dev, Stopped)
      else Loop([], false, o.dev, Running)
  }

  /** A run of ticks. */
  function Run(s: Loop, ts: seq<TickInput>): (r: Loop)
    requires s.dev.Valid()
    ensures r.dev.Valid() && |r.dev.channels| == |s.dev.channels|
    decreases |ts|
  {
    if |ts| == 0 then s else Run(Tick(s, ts[0]), ts[1..])
  }

  /** All frames queued during a run of ticks, in order. */
  function Queued(ts: seq<TickInput>): seq<Frame>
  {
    if |ts| == 0 then [] else ts[0].arrived + Queued(ts[1..])
  }

  /** All frames queued during a run, each with its tick's clock reading. */
  function Arrivals(ts: seq<TickInput>): (r: seq<Arrival>)
    ensures |r| == |Queued(ts)|
  {
    if |ts| == 0 then [] else Stamp(ts[0].arrived, ts[0].now) + Arrivals(ts[1..])
  }

  lemma {:induction false} QueuedAppend(a: seq<TickInput>, b: seq<TickInput>)
    ensures Queued(a + b) == Queued(a) + Queued(b)
  {
    if |a| == 0 {
      assert a + b == b;
    } else {
      assert (a + b)[0] == a[0] && (a + b)[1..] == a[1..] + b;
      QueuedAppend(a[1..], b);
    }
  }

  lemma {:induction false} ArrivalsAppend(a: seq<TickInput>, b: seq<TickInput>)
    ensures Arrivals(a + b) == Arrivals(a) + Arrivals(b)
  {
    if |a| == 0 {
      assert a + b == b;
    } else {
      assert (a + b)[0] == a[0] && (a + b)[1..] == a[1..] + b;
      ArrivalsAppend(a[1..], b);
    }
  }

  /** Runs compose tick by tick. */
  lemma {:induction false} RunAppend(s: Loop, a: seq<TickInput>, b: seq<TickInput>)
    requires s.dev.Valid()
    ensures Run(s, a + b) == Run(Run(s, a), b)
    decreases |a|
  {
    if |a| == 0 {
      assert a + b == b;
    } else {
      assert (a + b)[0] == a[0] && (a + b)[1..] == a[1..] + b;
      RunAppend(Tick(s, a[0]), a[1..], b);
    }
  }

  /** Decoding in queue order, read from the back: the last arrival is
      decoded on the state all earlier ones left, unless one of them raised. */
  lemma ProcessAllSnoc(dev: Device, xs: seq<Arrival>, x: Arrival)
    requires dev.Valid()
    ensures var o := ProcessAll(dev, xs);
      ProcessAll(dev, xs + [x]) == if o.Crashed? then o else ProcessFrame(o.dev, x.frame, x.at)
  {
    ProcessAllAppend(dev, xs, [x]);
    var o := ProcessAll(dev, xs);
    if o.Done? {
      assert [x][1..] == [];
    }
  }

  /** The loop, read from the back: the last tick starts from the state
      all earlier ticks left. */
  lemma RunSnoc(s: Loop, ts: seq<TickInput>, t: TickInput)
    requires s.dev.Valid()
    ensures Run(s, ts + [t]) == Tick(Run(s, ts), t)
  {
    RunAppend(s, ts, [t]);
    assert [t][1..] == [];
  }

  /** Once the thread has ended, the device and the status never change
      again, and every later frame stays in the queue. */
  lemma {:induction false} RunHalted(s: Loop, ts: seq<TickInput>)
    requires s.dev.Valid() && !s.status.Running?
    ensures Run(s, ts).dev == s.dev && Run(s, ts).status == s.status
    ensures Run(s, ts).answers == s.answers + Queued(ts)
    decreases |ts|
  {
    if |ts| > 0 {
      var next := Tick(s, ts[0]);
      RunHalted(next, ts[1..]);
      assert s.answers + Queued(ts) == next.answers + Queued(ts[1..]);
    }
  }

  /** Without a close request, a run decodes every queued frame exactly
      once, in queue order, with the clock reading of the tick that drained
      it: the device ends as sequential decoding of all arrivals leaves it,
      and the thread is alive exactly when no decode raised. */
  lemma {:induction false} RunIsSequentialProcessing(s: Loop, ts: seq<TickInput>)
    requires Fresh(s)
    requires forall i :: 0 <= i < |ts| ==> !ts[i].close
    ensures var o := ProcessAll(s.dev, Arrivals(ts));
      && Run(s, ts).dev == o.dev
      && (o.Done? <==> Fresh(Run(s, ts)))
      && (o.Crashed? ==> Run(s, ts).status == Died(o.fault))
    decreases |ts|
  {
    if |ts| > 0 {
      var t := ts[0];
      var head := Stamp(t.arrived, t.now);
      var next := Tick(s, t);
      assert s.answers + t.arrived == t.arrived;
      ProcessAllAppend(s.dev, head, Arrivals(ts[1..]));
      var o1 := ProcessAll(s.dev, head);
      if o1.Crashed? {
        RunHalted(next, ts[1..]);
      } else {
        RunIsSequentialProcessing(next, ts[1..]);
      }
    }
  }

  /** The tick that sees a close request ends the thread and clears the
      event, having decoded everything queued so far. */
  lemma StopTick(s: Loop, pre: seq<TickInput>, t: TickInput)
    requires Fresh(s)
    requires forall i :: 0 <= i < |pre| ==> !pre[i].close
    requires t.close
    ensures var o := ProcessAll(s.dev, Arrivals(pre + [t]));
      var r := Run(s, pre + [t]);
      && r.dev == o.dev
      && (o.Done? ==> r.status == Stopped && !r.closeEvent && r.answers == [])
      && (o.Crashed? ==> r.status == Died(o.fault))
  {
    var mid := Run(s, pre);
    assert Run(s, pre + [t]) == Tick(mid, t) by {
      RunAppend(s, pre, [t]);
      assert Run(mid, [t]) == Tick(mid, t);
    }
    var o1 := ProcessAll(s.dev, Arrivals(pre));
    assert ProcessAll(s.dev, Arrivals(pre + [t]))
        == if o1.Crashed? then o1 else ProcessAll(o1.dev, Stamp(t.arrived, t.now)) by {
      ArrivalsAppend(pre, [t]);
      assert Arrivals([t]) == Stamp(t.arrived, t.now);
      ProcessAllAppend(s.dev, Arrivals(pre), Arrivals([t]));
    }
    RunIsSequentialProcessing(s, pre);
    if mid.status.Running? {
      assert mid.answers + t.arrived == t.arrived;
    }
  }

  /** A close request stops the thread at the end of the tick that sees
      it: everything queued up to that tick is decoded in order, and
      whatever is queued later stays in the queue. */
  lemma RunStopsAtClose(s: Loop, pre: seq<TickInput>, t: TickInput, post: seq<TickInput>)
    requires Fresh(s)
    requires forall i :: 0 <= i < |pre| ==> !pre[i].close
    requires t.close
    ensures var o := ProcessAll(s.dev, Arrivals(pre + [t]));
      var r := Run(s, pre + [t] + post);
      && r.dev == o.dev
      && (o.Done? ==> r.status == Stopped && r.answers == Queued(post))
      && (o.Crashed? ==> r.status == Died(o.fault))
  {
    var stop := Run(s, pre + [t]);
    StopTick(s, pre, t);
    RunAppend(s, pre + [t], post);
    RunHalted(stop, post);
    assert [] + Queued(post) == Queued(post);
  }
}
