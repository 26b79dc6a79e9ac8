/** The viewer's motion-capture monitor as the mutable object it is: two deques and three ring buffers. */
module OptiMonitor {
  import opened Options
  import opened RingBuffer
  import opened OptiHealth

  class Monitor {
    ghost var log: seq<Event>  // every event so far
    const windows: Windows
    var arrivals: seq<real>
    var delays: seq<Delay>
    var lastSample: Option<real>
    const hz: Ring<Row>
    const lost: Ring<Row>
    const transport: Ring<Row>

    /** The three rings are apart, each a valid buffer. */
    ghost predicate Apart()
      reads this, hz, lost, transport, hz.buf, lost.buf, transport.buf
    {
      && hz != lost && hz != transport && lost != transport
      && hz.buf != lost.buf && hz.buf != transport.buf && lost.buf != transport.buf
      && hz.Valid() && lost.Valid() && transport.Valid()
      && hz.cap == lost.cap == transport.cap == MAX_SAMPLES
      && Positive(windows)
    }

    /** Everything that is kept is a function of the events so far. */
    ghost predicate Valid()
      reads this, hz, lost, transport, hz.buf, lost.buf, transport.buf
    {
      && Apart()
      && arrivals == Arrivals(windows, log)
      && delays == Delays(windows, log)
      && lastSample == LastSample(log)
      && hz.history == RateRows(windows, log)
      && lost.history == LostRows(windows, log)
      && transport.history == DelayRows(windows, log)
    }

    constructor (delayAvg: real, rate: real, lostHz: real)
      ensures Valid() && log == [] && windows == Limited(delayAvg, rate, lostHz)
      ensures fresh(hz) && fresh(hz.buf) && fresh(lost) && fresh(lost.buf) && fresh(transport) && fresh(transport.buf)
    {
      windows := Limited(delayAvg, rate, lostHz);
      arrivals, delays, lastSample, log := [], [], None, [];
      hz := new Ring(MAX_SAMPLES, []);
      lost := new Ring(MAX_SAMPLES, []);
      transport := new Ring(MAX_SAMPLES, []);
    }

    /** The popleft loop of the arrivals. */
    method TrimArrivals(cutoff: real)
      modifies this`arrivals
      ensures arrivals == DropOld(old(arrivals), Self, cutoff)
    {
      while arrivals != [] && arrivals[0] < cutoff
        invariant DropOld(arrivals, Self, cutoff) == DropOld(old(arrivals), Self, cutoff)
        decreases |arrivals|
      {
        arrivals := arrivals[1..];
      }
    }

    /** The popleft loop of the delays. */
    method TrimDelays(cutoff: real)
      modifies this`delays
      ensures delays == DropOld(old(delays), StampOf, cutoff)
    {
      while delays != [] && delays[0].t < cutoff
        invariant DropOld(delays, StampOf, cutoff) == DropOld(old(delays), StampOf, cutoff)
        decreases |delays|
      {
        delays := delays[1..];
      }
    }

    /** _record_opti_health_unlocked: trims the arrivals and, when a sample is due, pushes rate and lost flag. */
    method RecordHealth(t: real, force: bool)
      requires Apart()
      modifies this`arrivals, this`lastSample, hz, hz.buf, lost, lost.buf
      ensures Apart()
      ensures arrivals == DropOld(old(arrivals), Self, t - windows.rate)
      ensures var due := Due(old(lastSample), Tick(t, force));
              && lastSample == (if due then Some(t) else old(lastSample))
              && hz.history == old(hz.history) + (if due then [RateRow(windows, t, |arrivals|)] else [])
              && lost.history == old(lost.history) + (if due then [LostRow(windows, t, |arrivals|)] else [])
    {
      hide DropOld, Ring.Valid;
      TrimArrivals(t - windows.rate);
      if !force && lastSample.Some? && t - lastSample.value < OPTI_HEALTH_UPDATE_SEC * 0.8 {
        return;
      }
      var rateHz := |arrivals| as real / windows.rate;
      var flag := if rateHz < windows.lostHz then 1.0 else 0.0;
      hz.Push([t, rateHz]);
      lost.Push([t, flag]);
      lastSample := Some(t);
    }

    /** A finite delay: it is added, the window trimmed, its mean pushed. */
    method RecordDelay(t: real, ms: real)
      requires Apart()
      modifies this`delays, transport, transport.buf
      ensures Apart()
      ensures delays == DropOld(old(delays) + [Delay(t, ms)], StampOf, t - windows.delayAvg) && delays != []
      ensures transport.history == old(transport.history) + [DelayRow(Delay(t, ms), delays)]
    {
      delays := delays + [Delay(t, ms)];
      DropOldKeepsLast(delays, StampOf, t - windows.delayAvg);
      hide DropOld;
      TrimDelays(t - windows.delayAvg);
      var mean := DelayMean(delays);
      transport.Push([t, ms, mean]);
    }

    /** _record_opti_timing_unlocked: one message. */
    method RecordTiming(t: real, rawDelay: Option<real>)
      requires Valid()
      modifies this, hz, hz.buf, lost, lost.buf, transport, transport.buf
      ensures Valid() && log == old(log) + [Arrival(t, rawDelay)]
    {
      hide DropOld, Arrivals, Delays, RateRows, LostRows, DelayRows, LastSample, RateRow, LostRow, DelayRow, Ring.Valid;
      LogStep(windows, log, Arrival(t, rawDelay));
      arrivals := arrivals + [t];
      if rawDelay.Some? {
        RecordDelay(t, rawDelay.value);
      }
      RecordHealth(t, false);
      log := log + [Arrival(t, rawDelay)];
    }

    /** A health tick; the end of a replay forces its sample. */
    method HealthTick(t: real, force: bool)
      requires Valid()
      modifies this, hz, hz.buf, lost, lost.buf
      ensures Valid() && log == old(log) + [Tick(t, force)]
    {
      hide DropOld, Arrivals, Delays, RateRows, LostRows, DelayRows, LastSample, RateRow, LostRow, DelayRow, Ring.Valid;
      LogStep(windows, log, Tick(t, force));
      assert arrivals + [] == arrivals;
      RecordHealth(t, force);
      log := log + [Tick(t, force)];
    }

    /** What the rate plot shows: the last samples in order, each that of the full history when time never runs back. */
    method RatePlot() returns (rows: seq<Row>)
      requires Valid()
      ensures Monotone(log) ==> PlottedRates(windows, log, rows) && |rows| == MinNat(|SampleEvents(log)|, MAX_SAMPLES)
    {
      rows := hz.Get();
      if Monotone(log) { RatesMatchHistory(windows, log); }
    }

    /** What the delay plot shows. */
    method DelayPlot() returns (rows: seq<Row>)
      requires Valid()
      ensures Monotone(log) ==> PlottedMeans(windows, log, rows) && |rows| == MinNat(|DelayEvents(log)|, MAX_SAMPLES)
    {
      rows := transport.Get();
      if Monotone(log) { MeansMatchHistory(windows, log); }
    }
  }

  /** The rows are those of the last samples of the log. */
  ghost predicate PlottedRates(w: Windows, log: seq<Event>, rows: seq<Row>)
    requires Positive(w)
  {
    var events := SampleEvents(log);
    && |rows| <= |events| && Increasing(events, |log|)
    && forall k :: 0 <= k < |rows| ==> RateAt(w, log, events[|events| - |rows| + k], rows[k])
  }

  /** The rows are those of the last messages with a finite delay. */
  ghost predicate PlottedMeans(w: Windows, log: seq<Event>, rows: seq<Row>) {
    var events := DelayEvents(log);
    && |rows| <= |events| && Increasing(events, |log|)
    && forall k :: 0 <= k < |rows| ==> MeanAt(w, log, events[|events| - |rows| + k], rows[k])
  }

  ghost predicate Within(s: seq<Delay>, low: real, high: real) {
    forall d :: d in s ==> low <= d.ms <= high
  }

  /** sum / len: the window always holds at least the delay just added. */
  method DelayMean(window: seq<Delay>) returns (mean: real)
    requires window != []
    ensures mean == Sum(window) / |window| as real
    ensures forall low, high :: Within(window, low, high) ==> low <= mean <= high
  {
    mean := Sum(window) / |window| as real;
    forall low, high | Within(window, low, high)
      ensures low <= mean <= high
    {
      SumBetween(window, low, high);
      QuotientBetween(Sum(window), |window| as real, low, high);
    }
  }

  lemma QuotientBetween(sum: real, n: real, low: real, high: real)
    requires n > 0.0 && low * n <= sum <= high * n
    ensures low <= sum / n <= high
  {
  }

  /** One more event, part by part. */
  lemma LogStep(w: Windows, log: seq<Event>, e: Event)
    requires Positive(w)
    ensures var now := log + [e];
            && Arrivals(w, now) == DropOld(Arrivals(w, log) + ArrivalOf(e), Self, e.t - w.rate)
            && LastSample(now) == (if Due(LastSample(log), e) then Some(e.t) else LastSample(log))
            && var due, count := Due(LastSample(log), e), |Arrivals(w, now)|;
            && RateRows(w, now) == RateRows(w, log) + (if due then [RateRow(w, e.t, count)] else [])
            && LostRows(w, now) == LostRows(w, log) + (if due then [LostRow(w, e.t, count)] else [])
    ensures var now := log + [e];
            && (DelayOf(e) == [] ==> Delays(w, now) == Delays(w, log) && DelayRows(w, now) == DelayRows(w, log))
            && (DelayOf(e) != [] ==>
                  && Delays(w, now) != []
                  && Delays(w, now) == DropOld(Delays(w, log) + DelayOf(e), StampOf, e.t - w.delayAvg)
                  && DelayRows(w, now) == DelayRows(w, log) + [DelayRow(DelayOf(e)[0], Delays(w, now))])
  {
    hide DropOld, RateRow, LostRow, DelayRow;
    var now := log + [e];
    assert Init(now) == log && Last(now) == e;
    if DelayOf(e) != [] { DelayWindowNonEmpty(w, now); }
  }
}
