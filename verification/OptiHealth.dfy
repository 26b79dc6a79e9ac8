/**
 The viewer's motion-capture health: arrival and delay windows that are trimmed as messages come
 (`_record_opti_health_unlocked`, `_record_opti_timing_unlocked`), against the whole history.
 */
module OptiHealth {
  import opened Options
  import opened Reals

  /** What happens to the monitor: a message (its delay missing where not finite) or a health tick. */
  datatype Event =
    | Arrival(t: real, delay: Option<real>)
    | Tick(t: real, force: bool)

  datatype Delay = Delay(t: real, ms: real)

  type Row = seq<real>

  const OPTI_HEALTH_UPDATE_SEC := 0.05
  const MAX_SAMPLES: nat := 20000

  /** The node's parameters, already limited from below. */
  datatype Windows = Windows(delayAvg: real, rate: real, lostHz: real)

  predicate Positive(w: Windows) { w.delayAvg > 0.0 && w.rate > 0.0 }

  function Limited(delayAvg: real, rate: real, lostHz: real): (w: Windows)
    ensures Positive(w) && w.rate >= 0.1 && w.delayAvg >= 0.05 && w.lostHz >= 0.0
    ensures delayAvg >= 0.05 && rate >= 0.1 && lostHz >= 0.0 ==> w == Windows(delayAvg, rate, lostHz)
  {
    Windows(Max(0.05, delayAvg), Max(0.1, rate), Max(0.0, lostHz))
  }

  // ---------------------------------------------------------------- trimming and filtering

  /** popleft while the oldest entry lies before the cutoff. */
  function DropOld<T>(s: seq<T>, stamp: T -> real, cutoff: real): seq<T>
    decreases |s|
  {
    if s != [] && stamp(s[0]) < cutoff then DropOld(s[1..], stamp, cutoff) else s
  }

  /** The entries that do not lie before the cutoff. */
  function Since<T>(s: seq<T>, stamp: T -> real, cutoff: real): seq<T>
    decreases |s|
  {
    if s == [] then []
    else Since(s[..|s| - 1], stamp, cutoff) + (if stamp(s[|s| - 1]) < cutoff then [] else [s[|s| - 1]])
  }

  ghost predicate Sorted<T>(s: seq<T>, stamp: T -> real) {
    forall i, j :: 0 <= i < j < |s| ==> stamp(s[i]) <= stamp(s[j])
  }

  /** No entry that lies before the cutoff comes after one that does not. */
  ghost predicate SplitAt<T>(s: seq<T>, stamp: T -> real, cutoff: real) {
    forall i, j :: 0 <= i < j < |s| && !(stamp(s[i]) < cutoff) ==> !(stamp(s[j]) < cutoff)
  }

  lemma {:induction false} SinceConcat<T>(a: seq<T>, b: seq<T>, stamp: T -> real, cutoff: real)
    ensures Since(a + b, stamp, cutoff) == Since(a, stamp, cutoff) + Since(b, stamp, cutoff)
    decreases |b|
  {
    if b == [] {
      assert a + b == a;
    } else {
      assert (a + b)[..|a + b| - 1] == a + b[..|b| - 1];
      SinceConcat(a, b[..|b| - 1], stamp, cutoff);
    }
  }

  lemma {:induction false} SinceAll<T>(s: seq<T>, stamp: T -> real, cutoff: real)
    ensures |Since(s, stamp, cutoff)| <= |s|
    ensures if forall i :: 0 <= i < |s| ==> !(stamp(s[i]) < cutoff)
            then Since(s, stamp, cutoff) == s
            else |Since(s, stamp, cutoff)| < |s|
    decreases |s|
  {
    if s != [] {
      var init := s[..|s| - 1];
      SinceAll(init, stamp, cutoff);
      assert s == init + [s[|s| - 1]];
      assert forall i :: 0 <= i < |init| ==> init[i] == s[i];
    }
  }

  /** Trimming from the left is filtering exactly when the old entries all come first. */
  lemma {:induction false} TrimIsFilterIff<T>(s: seq<T>, stamp: T -> real, cutoff: real)
    ensures DropOld(s, stamp, cutoff) == Since(s, stamp, cutoff) <==> SplitAt(s, stamp, cutoff)
    decreases |s|
  {
    if s != [] {
      assert s == [s[0]] + s[1..];
      SinceConcat([s[0]], s[1..], stamp, cutoff);
      if stamp(s[0]) < cutoff {
        TrimIsFilterIff(s[1..], stamp, cutoff);
        assert Since(s, stamp, cutoff) == Since(s[1..], stamp, cutoff);
        SplitTail(s, stamp, cutoff);
      } else {
        SinceAll(s, stamp, cutoff);
      }
    }
  }

  lemma SplitTail<T>(s: seq<T>, stamp: T -> real, cutoff: real)
    requires s != [] && stamp(s[0]) < cutoff
    ensures SplitAt(s, stamp, cutoff) <==> SplitAt(s[1..], stamp, cutoff)
  {
  }

  lemma SinceOne<T>(x: T, stamp: T -> real, cutoff: real)
    ensures Since([x], stamp, cutoff) == if stamp(x) < cutoff then [] else [x]
  {
    assert [x][..0] == [];
  }

  /** A later cutoff sees through an earlier one. */
  lemma {:induction false} SinceSince<T>(s: seq<T>, stamp: T -> real, earlier: real, later: real)
    requires earlier <= later
    ensures Since(Since(s, stamp, earlier), stamp, later) == Since(s, stamp, later)
    decreases |s|
  {
    if s != [] {
      var init, x := s[..|s| - 1], s[|s| - 1];
      SinceSince(init, stamp, earlier, later);
      SinceConcat(Since(init, stamp, earlier), [x], stamp, later);
      SinceOne(x, stamp, later);
      assert Since(s, stamp, earlier) == Since(init, stamp, earlier) + (if stamp(x) < earlier then [] else [x]);
      assert stamp(x) < earlier ==> Since(s, stamp, earlier) == Since(init, stamp, earlier);
    }
  }

  // ---------------------------------------------------------------- the monitor over a log of events

  function Self(t: real): real { t }

  function StampOf(d: Delay): real { d.t }

  function ArrivalOf(e: Event): seq<real> {
    if e.Arrival? then [e.t] else []
  }

  function DelayOf(e: Event): seq<Delay> {
    if e.Arrival? && e.delay.Some? then [Delay(e.t, e.delay.value)] else []
  }

  function Last(log: seq<Event>): Event
    requires log != []
  {
    log[|log| - 1]
  }

  function Init(log: seq<Event>): seq<Event>
    requires log != []
  {
    log[..|log| - 1]
  }

  /** The deque `opti_arrival_times`. */
  function Arrivals(w: Windows, log: seq<Event>): seq<real>
    decreases |log|
  {
    if log == [] then []
    else DropOld(Arrivals(w, Init(log)) + ArrivalOf(Last(log)), Self, Last(log).t - w.rate)
  }

  /** The deque `opti_delay_window`, trimmed only by messages with a finite delay. */
  function Delays(w: Windows, log: seq<Event>): seq<Delay>
    decreases |log|
  {
    if log == [] then []
    else if DelayOf(Last(log)) == [] then Delays(w, Init(log))
    else DropOld(Delays(w, Init(log)) + DelayOf(Last(log)), StampOf, Last(log).t - w.delayAvg)
  }

  /** `last_opti_health_sample_t`; none is minus infinity. */
  function LastSample(log: seq<Event>): Option<real>
    decreases |log|
  {
    if log == [] then None
    else if Due(LastSample(Init(log)), Last(log)) then Some(Last(log).t)
    else LastSample(Init(log))
  }

  predicate Due(last: Option<real>, e: Event) {
    (e.Tick? && e.force) || last.None? || e.t - last.value >= OPTI_HEALTH_UPDATE_SEC * 0.8
  }

  predicate Sampled(log: seq<Event>)
    requires log != []
  {
    Due(LastSample(Init(log)), Last(log))
  }

  function RateRow(w: Windows, t: real, count: nat): Row
    requires Positive(w)
  {
    [t, count as real / w.rate]
  }

  function LostRow(w: Windows, t: real, count: nat): Row
    requires Positive(w)
  {
    [t, if count as real / w.rate < w.lostHz then 1.0 else 0.0]
  }

  function Sum(s: seq<Delay>): real
    decreases |s|
  {
    if s == [] then 0.0 else Sum(s[..|s| - 1]) + s[|s| - 1].ms
  }

  function DelayRow(d: Delay, window: seq<Delay>): Row
    requires window != []
  {
    [d.t, d.ms, Sum(window) / |window| as real]
  }

  /** The rows pushed to `buf_opti_hz`. */
  function RateRows(w: Windows, log: seq<Event>): seq<Row>
    requires Positive(w)
    decreases |log|
  {
    if log == [] then []
    else RateRows(w, Init(log)) + if Sampled(log) then [RateRow(w, Last(log).t, |Arrivals(w, log)|)] else []
  }

  /** The rows pushed to `buf_opti_lost`. */
  function LostRows(w: Windows, log: seq<Event>): seq<Row>
    requires Positive(w)
    decreases |log|
  {
    if log == [] then []
    else LostRows(w, Init(log)) + if Sampled(log) then [LostRow(w, Last(log).t, |Arrivals(w, log)|)] else []
  }

  /** The rows pushed to `buf_opti_transport_delay`. */
  function DelayRows(w: Windows, log: seq<Event>): seq<Row>
    requires Positive(w)
    decreases |log|
  {
    if log == [] then []
    else if DelayOf(Last(log)) == [] then DelayRows(w, Init(log))
    else
      DelayWindowNonEmpty(w, log);
      DelayRows(w, Init(log)) + [DelayRow(DelayOf(Last(log))[0], Delays(w, log))]
  }

  lemma {:induction false} DropOldKeepsLast<T>(s: seq<T>, stamp: T -> real, cutoff: real)
    requires s != [] && cutoff <= stamp(s[|s| - 1])
    ensures DropOld(s, stamp, cutoff) != []
    decreases |s|
  {
    if stamp(s[0]) < cutoff {
      assert s[1..][|s[1..]| - 1] == s[|s| - 1];
      DropOldKeepsLast(s[1..], stamp, cutoff);
    }
  }

  /** The mean is never taken of an empty window, whatever the clock does. */
  lemma DelayWindowNonEmpty(w: Windows, log: seq<Event>)
    requires Positive(w) && log != [] && DelayOf(Last(log)) != []
    ensures Delays(w, log) != []
  {
    DropOldKeepsLast(Delays(w, Init(log)) + DelayOf(Last(log)), StampOf, Last(log).t - w.delayAvg);
  }

  // ---------------------------------------------------------------- the windows are windows of the whole history

  ghost predicate Monotone(log: seq<Event>) {
    forall i, j :: 0 <= i < j < |log| ==> log[i].t <= log[j].t
  }

  /** Every arrival time so far. */
  function AllArrivals(log: seq<Event>): seq<real>
    decreases |log|
  {
    if log == [] then [] else AllArrivals(Init(log)) + ArrivalOf(Last(log))
  }

  /** Every finite delay so far. */
  function AllDelays(log: seq<Event>): seq<Delay>
    decreases |log|
  {
    if log == [] then [] else AllDelays(Init(log)) + DelayOf(Last(log))
  }

  lemma {:induction false} ArrivalsSorted(log: seq<Event>)
    requires Monotone(log)
    ensures Sorted(AllArrivals(log), Self)
    ensures forall i :: 0 <= i < |AllArrivals(log)| ==> log != [] && AllArrivals(log)[i] <= Last(log).t
    decreases |log|
  {
    if log != [] {
      ArrivalsSorted(Init(log));
      if Init(log) != [] { assert Last(Init(log)).t <= Last(log).t; }
    }
  }

  lemma {:induction false} DelaysSorted(log: seq<Event>)
    requires Monotone(log)
    ensures Sorted(AllDelays(log), StampOf)
    ensures forall i :: 0 <= i < |AllDelays(log)| ==> log != [] && AllDelays(log)[i].t <= Last(log).t
    decreases |log|
  {
    if log != [] {
      DelaysSorted(Init(log));
      if Init(log) != [] { assert Last(Init(log)).t <= Last(log).t; }
    }
  }

  lemma {:induction false} SinceSorted<T>(s: seq<T>, stamp: T -> real, cutoff: real)
    requires Sorted(s, stamp)
    ensures Sorted(Since(s, stamp, cutoff), stamp)
    ensures forall x :: x in Since(s, stamp, cutoff) ==> x in s
    decreases |s|
  {
    if s != [] {
      var init := s[..|s| - 1];
      SinceSorted(init, stamp, cutoff);
      assert forall x :: x in init ==> stamp(x) <= stamp(s[|s| - 1]);
    }
  }

  lemma SortedSplits<T>(s: seq<T>, stamp: T -> real, cutoff: real)
    requires Sorted(s, stamp)
    ensures SplitAt(s, stamp, cutoff)
  {
  }

  /** One trimming step of a window keeps it equal to the filter of the history. */
  lemma WindowStep<T>(history: seq<T>, more: seq<T>, stamp: T -> real, earlier: real, later: real)
    requires Sorted(history + more, stamp) && earlier <= later
    requires forall x :: x in more ==> earlier <= stamp(x)
    ensures DropOld(Since(history, stamp, earlier) + more, stamp, later) == Since(history + more, stamp, later)
  {
    SinceConcat(history, more, stamp, earlier);
    SinceAll(more, stamp, earlier);
    var window := Since(history, stamp, earlier) + more;
    assert window == Since(history + more, stamp, earlier);
    SinceSorted(history + more, stamp, earlier);
    SortedSplits(window, stamp, later);
    TrimIsFilterIff(window, stamp, later);
    SinceSince(history + more, stamp, earlier, later);
  }

  /** After every event the arrival deque is the filter of all arrivals by that event's cutoff. */
  lemma {:induction false} ArrivalsAreWindow(w: Windows, log: seq<Event>)
    requires Positive(w) && Monotone(log) && log != []
    ensures Arrivals(w, log) == Since(AllArrivals(log), Self, Last(log).t - w.rate)
    decreases |log|
  {
    hide Since, DropOld;
    ArrivalsSorted(log);
    var later := Last(log).t - w.rate;
    if Init(log) == [] {
      NothingSince<real>(Self, later);
      WindowStep([], ArrivalOf(Last(log)), Self, later, later);
    } else {
      ArrivalsAreWindow(w, Init(log));
      assert Last(Init(log)).t <= Last(log).t;
      WindowStep(AllArrivals(Init(log)), ArrivalOf(Last(log)), Self, Last(Init(log)).t - w.rate, later);
    }
  }

  lemma NothingSince<T>(stamp: T -> real, cutoff: real)
    ensures Since([], stamp, cutoff) == []
  {
  }

  /** The delay deque is the filter of all finite delays by the cutoff of the last message that had one. */
  lemma {:induction false} DelaysAreWindow(w: Windows, log: seq<Event>)
    requires Positive(w) && Monotone(log)
    ensures Delays(w, log) == DelayWindow(AllDelays(log), w.delayAvg)
    decreases |log|
  {
    hide Since, DropOld, Delays, AllDelays;
    DelaysStep(w, log);
    if log != [] {
      DelaysAreWindow(w, Init(log));
      if DelayOf(Last(log)) != [] {
        assert DelayOf(Last(log)) == [DelayOf(Last(log))[0]];
        DelaysSorted(log);
        DelayStep(AllDelays(Init(log)), DelayOf(Last(log))[0], w.delayAvg);
      }
    }
  }

  function DelayWindow(s: seq<Delay>, avg: real): seq<Delay> {
    if s == [] then [] else Since(s, StampOf, s[|s| - 1].t - avg)
  }

  lemma SortedLast(history: seq<Delay>, d: Delay)
    requires Sorted(history + [d], StampOf)
    ensures history != [] ==> history[|history| - 1].t <= d.t
  {
    var s := history + [d];
    var n := |history|;
    assert history != [] ==> s[n - 1] == history[n - 1] && StampOf(s[n - 1]) <= StampOf(s[n]);
  }

  lemma DelayStep(history: seq<Delay>, d: Delay, avg: real)
    requires Sorted(history + [d], StampOf) && avg > 0.0
    ensures DropOld(DelayWindow(history, avg) + [d], StampOf, d.t - avg) == DelayWindow(history + [d], avg)
  {
    hide DropOld, Since, Sorted;
    NothingSince<Delay>(StampOf, d.t - avg);
    SortedLast(history, d);
    var earlier := if history == [] then d.t - avg else history[|history| - 1].t - avg;
    assert DelayWindow(history, avg) == Since(history, StampOf, earlier);
    WindowStep(history, [d], StampOf, earlier, d.t - avg);
  }

  // ---------------------------------------------------------------- with any clock

  ghost predicate IsSuffix<T>(s: seq<T>, t: seq<T>) {
    |s| <= |t| && t[|t| - |s|..] == s
  }

  lemma {:induction false} DropOldSuffix<T>(s: seq<T>, stamp: T -> real, cutoff: real)
    ensures IsSuffix(DropOld(s, stamp, cutoff), s)
    ensures Since(DropOld(s, stamp, cutoff), stamp, cutoff) == Since(s, stamp, cutoff)
    decreases |s|
  {
    if s != [] && stamp(s[0]) < cutoff {
      DropOldSuffix(s[1..], stamp, cutoff);
      assert s == [s[0]] + s[1..];
      SinceConcat([s[0]], s[1..], stamp, cutoff);
      SinceOne(s[0], stamp, cutoff);
    }
  }

  lemma {:induction false} SinceNone<T>(s: seq<T>, stamp: T -> real, cutoff: real)
    ensures Since(s, stamp, cutoff) == [] <==> forall i :: 0 <= i < |s| ==> stamp(s[i]) < cutoff
    decreases |s|
  {
    if s != [] {
      var init := s[..|s| - 1];
      SinceNone(init, stamp, cutoff);
      assert forall i :: 0 <= i < |init| ==> init[i] == s[i];
    }
  }

  /** Every entry that is no longer in the deque lies before the cutoff. */
  ghost predicate PoppedAreOld<T>(history: seq<T>, deque: seq<T>, stamp: T -> real, cutoff: real) {
    forall i :: 0 <= i < |history| - |deque| ==> stamp(history[i]) < cutoff
  }

  /**
   Trimming a deque gives the filter of the history exactly if the old entries of the deque all come first and nothing
   that is not old was popped before.
   */
  lemma WindowIff<T>(history: seq<T>, deque: seq<T>, stamp: T -> real, cutoff: real)
    requires IsSuffix(deque, history)
    ensures DropOld(deque, stamp, cutoff) == Since(history, stamp, cutoff)
       <==> SplitAt(deque, stamp, cutoff) && PoppedAreOld(history, deque, stamp, cutoff)
  {
    hide Since, DropOld, SplitAt;
    var popped := history[..|history| - |deque|];
    assert history == popped + deque;
    SinceConcat(popped, deque, stamp, cutoff);
    SinceNone(popped, stamp, cutoff);
    TrimIsFilterIff(deque, stamp, cutoff);
    DropOldSuffix(deque, stamp, cutoff);
    SinceSince(history, stamp, cutoff, cutoff);
    if DropOld(deque, stamp, cutoff) == Since(history, stamp, cutoff) {
      assert |Since(deque, stamp, cutoff)| == |Since(popped, stamp, cutoff)| + |Since(deque, stamp, cutoff)|;
    }
    assert Since(popped, stamp, cutoff) == [] ==> Since(history, stamp, cutoff) == Since(deque, stamp, cutoff);
    assert forall i :: 0 <= i < |popped| ==> popped[i] == history[i];
  }

  lemma SuffixGrows<T>(s: seq<T>, t: seq<T>, more: seq<T>)
    requires IsSuffix(s, t)
    ensures IsSuffix(s + more, t + more)
  {
    assert (t + more)[|t| - |s|..] == t[|t| - |s|..] + more;
  }

  lemma SuffixOfSuffix<T>(r: seq<T>, s: seq<T>, t: seq<T>)
    requires IsSuffix(r, s) && IsSuffix(s, t)
    ensures IsSuffix(r, t)
  {
    assert t[|t| - |r|..] == t[|t| - |s|..][|s| - |r|..];
  }

  /** Whatever the clock does, the deque holds the last arrivals of the history. */
  lemma {:induction false} ArrivalsAreSuffix(w: Windows, log: seq<Event>)
    ensures IsSuffix(Arrivals(w, log), AllArrivals(log))
    decreases |log|
  {
    hide IsSuffix, DropOld, Since, Arrivals, AllArrivals;
    ArrivalsStep(w, log);
    EmptySuffix<real>();
    if log != [] {
      var init, e := Init(log), Last(log);
      ArrivalsAreSuffix(w, init);
      SuffixGrows(Arrivals(w, init), AllArrivals(init), ArrivalOf(e));
      DropOldSuffix(Arrivals(w, init) + ArrivalOf(e), Self, e.t - w.rate);
      SuffixOfSuffix(Arrivals(w, log), Arrivals(w, init) + ArrivalOf(e), AllArrivals(log));
    }
  }

  /** Whatever the clock does, the deque holds the last finite delays of the history. */
  lemma {:induction false} DelaysAreSuffix(w: Windows, log: seq<Event>)
    ensures IsSuffix(Delays(w, log), AllDelays(log))
    decreases |log|
  {
    hide IsSuffix, DropOld, Since, Delays, AllDelays;
    DelaysStep(w, log);
    EmptySuffix<Delay>();
    if log != [] {
      var init, e := Init(log), Last(log);
      DelaysAreSuffix(w, init);
      if DelayOf(e) != [] {
        SuffixGrows(Delays(w, init), AllDelays(init), DelayOf(e));
        DropOldSuffix(Delays(w, init) + DelayOf(e), StampOf, e.t - w.delayAvg);
        SuffixOfSuffix(Delays(w, log), Delays(w, init) + DelayOf(e), AllDelays(log));
      }
    }
  }

  lemma EmptySuffix<T>()
    ensures IsSuffix<T>([], [])
  {
  }

  /**
   After any log, the arrival deque is the filter of all arrivals exactly if, when the last event came, no old entry of
   the deque followed one that is not, and every arrival popped before is old.
   */
  lemma ArrivalsAreWindowIff(w: Windows, log: seq<Event>)
    requires log != []
    ensures var cutoff, deque := Last(log).t - w.rate, Arrivals(w, Init(log)) + ArrivalOf(Last(log));
            Arrivals(w, log) == Since(AllArrivals(log), Self, cutoff)
            <==> SplitAt(deque, Self, cutoff) && PoppedAreOld(AllArrivals(log), deque, Self, cutoff)
  {
    hide IsSuffix, DropOld, Since, SplitAt, PoppedAreOld, Arrivals, AllArrivals;
    ArrivalsStep(w, log);
    ArrivalsAreSuffix(w, Init(log));
    SuffixGrows(Arrivals(w, Init(log)), AllArrivals(Init(log)), ArrivalOf(Last(log)));
    WindowIff(AllArrivals(log), Arrivals(w, Init(log)) + ArrivalOf(Last(log)), Self, Last(log).t - w.rate);
  }

  lemma DelaysStep(w: Windows, log: seq<Event>)
    ensures log == [] ==> Delays(w, log) == AllDelays(log) == []
    ensures log != [] && DelayOf(Last(log)) == [] ==>
              Delays(w, log) == Delays(w, Init(log)) && AllDelays(log) == AllDelays(Init(log))
    ensures log != [] && DelayOf(Last(log)) != [] ==>
              && Delays(w, log) == DropOld(Delays(w, Init(log)) + DelayOf(Last(log)), StampOf, Last(log).t - w.delayAvg)
              && AllDelays(log) == AllDelays(Init(log)) + DelayOf(Last(log))
  {
    hide DropOld, DelayOf;
  }

  /** The same for the delay deque, at every message with a finite delay, which are the ones that take a mean. */
  lemma DelaysAreWindowIff(w: Windows, log: seq<Event>)
    requires log != [] && DelayOf(Last(log)) != []
    ensures var cutoff, deque := Last(log).t - w.delayAvg, Delays(w, Init(log)) + DelayOf(Last(log));
            Delays(w, log) == Since(AllDelays(log), StampOf, cutoff)
            <==> SplitAt(deque, StampOf, cutoff) && PoppedAreOld(AllDelays(log), deque, StampOf, cutoff)
  {
    hide IsSuffix, DropOld, Since, SplitAt, PoppedAreOld, Delays, AllDelays;
    DelaysStep(w, log);
    DelaysAreSuffix(w, Init(log));
    SuffixGrows(Delays(w, Init(log)), AllDelays(Init(log)), DelayOf(Last(log)));
    WindowIff(AllDelays(log), Delays(w, Init(log)) + DelayOf(Last(log)), StampOf, Last(log).t - w.delayAvg);
  }

  /** A clock that jumps ahead and comes back: the arrival popped on the way is in the window again, and missing. */
  lemma ClockJumpBreaksTheWindow(w: Windows)
    requires w.rate == 1.0
    ensures var log := [Arrival(5.0, None), Tick(100.0, false), Tick(5.5, false)];
            Arrivals(w, log) == [] && Since(AllArrivals(log), Self, Last(log).t - w.rate) == [5.0]
  {
    hide Since, DropOld, Arrivals, AllArrivals;
    var one := [Arrival(5.0, None)];
    var two := [Arrival(5.0, None), Tick(100.0, false)];
    var log := [Arrival(5.0, None), Tick(100.0, false), Tick(5.5, false)];
    assert Init(log) == two && Init(two) == one && Init(one) == [];
    ArrivalsStep(w, []);
    ArrivalsStep(w, one);
    assert Arrivals(w, []) + [5.0] == [5.0] == AllArrivals([]) + [5.0];
    ArrivalsStep(w, two);
    ArrivalsStep(w, log);
    assert [5.0] + [] == [5.0];
    DropOldNone([5.0], Self, 4.0);
    DropOldAll(5.0, Self, 99.0);
    DropOldEmpty<real>(Self, 4.5);
    assert Arrivals(w, two) + [] == [];
    SinceOne(5.0, Self, 4.5);
  }

  lemma DropOldEmpty<T>(stamp: T -> real, cutoff: real)
    ensures DropOld([], stamp, cutoff) == []
  {
  }

  lemma DropOldAll<T>(x: T, stamp: T -> real, cutoff: real)
    requires stamp(x) < cutoff
    ensures DropOld([x], stamp, cutoff) == []
  {
    assert [x][1..] == [];
  }

  /** Without monotone times the deque can keep an arrival that the filter drops. */
  lemma ClockStepBackBreaksTheWindow(w: Windows)
    requires w.rate == 1.0
    ensures var log := [Arrival(9.0, None), Arrival(7.0, None), Tick(9.5, false)];
            Arrivals(w, log) == [9.0, 7.0] && Since(AllArrivals(log), Self, Last(log).t - w.rate) == [9.0]
  {
    hide Since, DropOld, Arrivals, AllArrivals;
    var one := [Arrival(9.0, None)];
    var two := [Arrival(9.0, None), Arrival(7.0, None)];
    var log := [Arrival(9.0, None), Arrival(7.0, None), Tick(9.5, false)];
    assert Init(log) == two && Init(two) == one && Init(one) == [];
    ArrivalsStep(w, []);
    ArrivalsStep(w, one);
    assert Arrivals(w, []) + [9.0] == [9.0] && AllArrivals([]) + [9.0] == [9.0];
    ArrivalsStep(w, two);
    assert [9.0] + [7.0] == [9.0, 7.0] == [9.0, 7.0] + [];
    ArrivalsStep(w, log);
    DropOldNone([9.0], Self, 8.0);
    DropOldNone([9.0, 7.0], Self, 6.0);
    DropOldNone([9.0, 7.0], Self, 8.5);
    assert AllArrivals(log) == [9.0] + [7.0];
    SinceConcat([9.0], [7.0], Self, 8.5);
    SinceOne(9.0, Self, 8.5);
    SinceOne(7.0, Self, 8.5);
  }

  lemma ArrivalsStep(w: Windows, log: seq<Event>)
    ensures log == [] ==> Arrivals(w, log) == AllArrivals(log) == []
    ensures log != [] ==>
              Arrivals(w, log) == DropOld(Arrivals(w, Init(log)) + ArrivalOf(Last(log)), Self, Last(log).t - w.rate)
    ensures log != [] ==> AllArrivals(log) == AllArrivals(Init(log)) + ArrivalOf(Last(log))
  {
    hide DropOld, ArrivalOf;
  }

  lemma DropOldNone<T>(s: seq<T>, stamp: T -> real, cutoff: real)
    requires s != [] && !(stamp(s[0]) < cutoff)
    ensures DropOld(s, stamp, cutoff) == s
  {
  }

  // ---------------------------------------------------------------- every row ever recorded

  /** How many arrivals of the log lie in the window that ends at `t`. */
  function CountSince(log: seq<Event>, cutoff: real): nat {
    |set i | 0 <= i < |log| && log[i].Arrival? && !(log[i].t < cutoff)|
  }

  lemma {:induction false} CountIsLength(log: seq<Event>, cutoff: real)
    ensures CountSince(log, cutoff) == |Since(AllArrivals(log), Self, cutoff)|
    decreases |log|
  {
    hide Since, CountSince;
    NothingSince<real>(Self, cutoff);
    if log == [] {
      NoneCounted(cutoff);
    } else {
      CountIsLength(Init(log), cutoff);
      SinceConcat(AllArrivals(Init(log)), ArrivalOf(Last(log)), Self, cutoff);
      SinceOne(Last(log).t, Self, cutoff);
      CountStep(log, cutoff);
    }
  }

  lemma NoneCounted(cutoff: real)
    ensures CountSince([], cutoff) == 0
  {
  }

  lemma CountStep(log: seq<Event>, cutoff: real)
    requires log != []
    ensures CountSince(log, cutoff) ==
            CountSince(Init(log), cutoff) + if Last(log).Arrival? && !(Last(log).t < cutoff) then 1 else 0
  {
    var init := Init(log);
    var before := set i | 0 <= i < |init| && init[i].Arrival? && !(init[i].t < cutoff);
    var now := set i | 0 <= i < |log| && log[i].Arrival? && !(log[i].t < cutoff);
    assert now == before + if Last(log).Arrival? && !(Last(log).t < cutoff) then {|init|} else {};
  }

  /** `row` is the rate at event `i`: the arrivals of the last window, per second. */
  ghost predicate RateAt(w: Windows, log: seq<Event>, i: nat, row: Row)
    requires Positive(w) && i < |log|
  {
    row == [log[i].t, CountSince(UpTo(log, i), log[i].t - w.rate) as real / w.rate]
  }

  /** `row` says whether that rate lies below the one asked for. */
  ghost predicate LostAt(w: Windows, log: seq<Event>, i: nat, row: Row)
    requires Positive(w) && i < |log|
  {
    var lost := CountSince(UpTo(log, i), log[i].t - w.rate) as real / w.rate < w.lostHz;
    row == [log[i].t, if lost then 1.0 else 0.0]
  }

  lemma ArrivalCount(w: Windows, log: seq<Event>)
    requires Positive(w) && Monotone(log) && log != []
    ensures |Arrivals(w, log)| == CountSince(log, Last(log).t - w.rate)
  {
    ArrivalsAreWindow(w, log);
    CountIsLength(log, Last(log).t - w.rate);
  }

  /** The events that took a sample, in order. */
  ghost function SampleEvents(log: seq<Event>): seq<nat>
    decreases |log|
  {
    if log == [] then [] else SampleEvents(Init(log)) + if Sampled(log) then [|log| - 1] else []
  }

  /** The last event is a message with a finite delay. */
  ghost predicate Delayed(log: seq<Event>)
    requires log != []
  {
    DelayOf(Last(log)) != []
  }

  /** The messages with a finite delay, in order. */
  ghost function DelayEvents(log: seq<Event>): seq<nat>
    decreases |log|
  {
    if log == [] then [] else DelayEvents(Init(log)) + if Delayed(log) then [|log| - 1] else []
  }

  ghost predicate Increasing(s: seq<nat>, bound: nat) {
    (forall k :: 0 <= k < |s| ==> s[k] < bound) && forall k, l :: 0 <= k < l < |s| ==> s[k] < s[l]
  }

  lemma EmptyList()
    ensures Increasing([], 0)
  {
  }

  /** A list of positions below n, with n appended or not. */
  lemma ListStep(s: seq<nat>, n: nat, more: bool)
    requires Increasing(s, n)
    ensures var s' := s + if more then [n] else [];
            && Increasing(s', n + 1) && (n in s' <==> more)
            && forall i: nat :: i < n ==> (i in s' <==> i in s)
  {
  }

  /** The log up to and with event i. */
  ghost function UpTo(log: seq<Event>, i: nat): (r: seq<Event>)
    requires i < |log|
    ensures r != []
  {
    log[..i + 1]
  }

  lemma UpToInit(log: seq<Event>)
    requires log != []
    ensures UpTo(log, |log| - 1) == log
    ensures forall i: nat :: i < |Init(log)| ==> UpTo(Init(log), i) == UpTo(log, i)
  {
  }

  /** The list of samples is complete and in order. */
  lemma {:induction false} SamplesListed(log: seq<Event>)
    ensures Increasing(SampleEvents(log), |log|)
    ensures forall i: nat :: i < |log| ==> (i in SampleEvents(log) <==> Sampled(UpTo(log, i)))
    decreases |log|
  {
    hide Sampled, UpTo, Increasing;
    EmptyList();
    if log != [] {
      SamplesListed(Init(log));
      ListStep(SampleEvents(Init(log)), |log| - 1, Sampled(log));
      UpToInit(log);
    }
  }

  /** The list of messages with a finite delay is complete and in order. */
  lemma {:induction false} DelaysListed(log: seq<Event>)
    ensures Increasing(DelayEvents(log), |log|)
    ensures forall i: nat :: i < |log| ==> (i in DelayEvents(log) <==> Delayed(UpTo(log, i)))
    decreases |log|
  {
    hide Delayed, UpTo, Increasing;
    EmptyList();
    if log != [] {
      DelaysListed(Init(log));
      ListStep(DelayEvents(Init(log)), |log| - 1, Delayed(log));
      UpToInit(log);
    }
  }

  lemma RateAtKept(w: Windows, log: seq<Event>, i: nat, rate: Row, lost: Row)
    requires Positive(w) && log != [] && i < |Init(log)|
    requires RateAt(w, Init(log), i, rate) && LostAt(w, Init(log), i, lost)
    ensures RateAt(w, log, i, rate) && LostAt(w, log, i, lost)
  {
    hide CountSince, RateRow, LostRow, UpTo;
    UpToInit(log);
  }

  lemma RateAtLast(w: Windows, log: seq<Event>)
    requires Positive(w) && Monotone(log) && log != []
    ensures RateAt(w, log, |log| - 1, RateRow(w, Last(log).t, |Arrivals(w, log)|))
    ensures LostAt(w, log, |log| - 1, LostRow(w, Last(log).t, |Arrivals(w, log)|))
  {
    hide CountSince, Arrivals, UpTo;
    ArrivalCount(w, log);
    UpToInit(log);
  }

  /** Row k of the rates and of the lost flags is that of the full history at the k-th sample. */
  lemma {:induction false} RatesMatchHistory(w: Windows, log: seq<Event>)
    requires Positive(w) && Monotone(log)
    ensures |RateRows(w, log)| == |LostRows(w, log)| == |SampleEvents(log)| && Increasing(SampleEvents(log), |log|)
    ensures forall k :: 0 <= k < |SampleEvents(log)| ==>
              && RateAt(w, log, SampleEvents(log)[k], RateRows(w, log)[k])
              && LostAt(w, log, SampleEvents(log)[k], LostRows(w, log)[k])
    decreases |log|
  {
    hide RateAt, LostAt, Arrivals, RateRow, LostRow, Sampled;
    SamplesListed(log);
    if log != [] {
      var init := Init(log);
      RatesMatchHistory(w, init);
      RateAtLast(w, log);
      forall k | 0 <= k < |SampleEvents(init)|
        ensures RateAt(w, log, SampleEvents(init)[k], RateRows(w, init)[k])
        ensures LostAt(w, log, SampleEvents(init)[k], LostRows(w, init)[k])
      {
        RateAtKept(w, log, SampleEvents(init)[k], RateRows(w, init)[k], LostRows(w, init)[k]);
      }
    }
  }

  /** The sum of the finite delays of the log that do not lie before the cutoff. */
  ghost function TotalSince(log: seq<Event>, cutoff: real): real
    decreases |log|
  {
    if log == [] then 0.0
    else
      var e := log[|log| - 1];
      TotalSince(log[..|log| - 1], cutoff)
      + if e.Arrival? && e.delay.Some? && !(e.t < cutoff) then e.delay.value else 0.0
  }

  /** How many they are. */
  ghost function DelaysSince(log: seq<Event>, cutoff: real): nat {
    |set i | 0 <= i < |log| && log[i].Arrival? && log[i].delay.Some? && !(log[i].t < cutoff)|
  }

  lemma SumConcat(s: seq<Delay>, d: Delay)
    ensures Sum(s + [d]) == Sum(s) + d.ms && Sum([]) == 0.0 && s + [] == s
  {
    assert (s + [d])[..|s|] == s;
  }

  lemma DelayCountStep(log: seq<Event>, cutoff: real)
    requires log != []
    ensures DelaysSince(log, cutoff) ==
            DelaysSince(Init(log), cutoff)
            + if Last(log).Arrival? && Last(log).delay.Some? && !(Last(log).t < cutoff) then 1 else 0
  {
    var init := Init(log);
    var before := set i | 0 <= i < |init| && init[i].Arrival? && init[i].delay.Some? && !(init[i].t < cutoff);
    var now := set i | 0 <= i < |log| && log[i].Arrival? && log[i].delay.Some? && !(log[i].t < cutoff);
    var counts := Last(log).Arrival? && Last(log).delay.Some? && !(Last(log).t < cutoff);
    assert now == before + if counts then {|init|} else {};
  }

  /** Sum and length of the window are those of the log. */
  lemma {:induction false} TotalIsSum(log: seq<Event>, cutoff: real)
    ensures Sum(Since(AllDelays(log), StampOf, cutoff)) == TotalSince(log, cutoff)
    ensures |Since(AllDelays(log), StampOf, cutoff)| == DelaysSince(log, cutoff)
    decreases |log|
  {
    hide Since, DelaysSince, Sum;
    NothingSince<Delay>(StampOf, cutoff);
    if log == [] {
      SumConcat([], Delay(0.0, 0.0));
      NoDelays(cutoff);
    } else {
      TotalIsSum(Init(log), cutoff);
      DelayCountStep(log, cutoff);
      var before := Since(AllDelays(Init(log)), StampOf, cutoff);
      SinceConcat(AllDelays(Init(log)), DelayOf(Last(log)), StampOf, cutoff);
      SumConcat(before, Delay(0.0, 0.0));
      if DelayOf(Last(log)) != [] {
        SinceOne(DelayOf(Last(log))[0], StampOf, cutoff);
        SumConcat(before, DelayOf(Last(log))[0]);
      }
    }
  }

  lemma NoDelays(cutoff: real)
    ensures DelaysSince([], cutoff) == 0
  {
  }

  /** `row` is the delay at event `i`, with the mean over all finite delays of the window that ends there. */
  ghost predicate MeanAt(w: Windows, log: seq<Event>, i: nat, row: Row)
    requires i < |log|
  {
    && log[i].Arrival? && log[i].delay.Some?
    && var total := TotalSince(UpTo(log, i), log[i].t - w.delayAvg);
       var count := DelaysSince(UpTo(log, i), log[i].t - w.delayAvg);
       count > 0 && row == [log[i].t, log[i].delay.value, total / count as real]
  }

  lemma {:induction false} MeanAtKept(w: Windows, log: seq<Event>, i: nat, row: Row)
    requires log != [] && i < |Init(log)| && MeanAt(w, Init(log), i, row)
    ensures MeanAt(w, log, i, row)
  {
    hide TotalSince, DelaysSince, UpTo;
    UpToInit(log);
  }

  lemma LastDelay(log: seq<Event>)
    requires log != [] && DelayOf(Last(log)) != []
    ensures AllDelays(log) != [] && AllDelays(log)[|AllDelays(log)| - 1] == DelayOf(Last(log))[0]
  {
  }

  lemma {:induction false} MeanAtLast(w: Windows, log: seq<Event>)
    requires Positive(w) && Monotone(log) && log != [] && DelayOf(Last(log)) != []
    ensures Delays(w, log) != [] && MeanAt(w, log, |log| - 1, DelayRow(DelayOf(Last(log))[0], Delays(w, log)))
  {
    hide Since, Delays, UpTo, TotalSince, DelaysSince, Sum;
    DelayWindowNonEmpty(w, log);
    DelaysAreWindow(w, log);
    TotalIsSum(log, Last(log).t - w.delayAvg);
    UpToInit(log);
    LastDelay(log);
  }

  /** Row k of the delays is that of the full history at the k-th message with a finite delay. */
  lemma {:induction false} MeansMatchHistory(w: Windows, log: seq<Event>)
    requires Positive(w) && Monotone(log)
    ensures |DelayRows(w, log)| == |DelayEvents(log)| && Increasing(DelayEvents(log), |log|)
    ensures forall k :: 0 <= k < |DelayEvents(log)| ==> MeanAt(w, log, DelayEvents(log)[k], DelayRows(w, log)[k])
    decreases |log|
  {
    hide MeanAt, Delays, DelayRow, DelayOf;
    DelaysListed(log);
    if log != [] {
      var init := Init(log);
      MeansMatchHistory(w, init);
      if DelayOf(Last(log)) != [] { MeanAtLast(w, log); }
      forall k | 0 <= k < |DelayEvents(init)|
        ensures MeanAt(w, log, DelayEvents(init)[k], DelayRows(w, init)[k])
      {
        MeanAtKept(w, log, DelayEvents(init)[k], DelayRows(w, init)[k]);
      }
    }
  }

  /** A mean lies between any bounds on the delays of its window. */
  lemma {:induction false} SumBetween(s: seq<Delay>, low: real, high: real)
    requires forall d :: d in s ==> low <= d.ms <= high
    ensures low * |s| as real <= Sum(s) <= high * |s| as real
    decreases |s|
  {
    if s != [] {
      SumBetween(s[..|s| - 1], low, high);
      assert s[|s| - 1] in s;
    }
  }

  /** A sample is taken at exactly the events that force one or come 0.04 s or more after every sample before. */
  lemma SampledIff(log: seq<Event>, i: nat)
    requires Monotone(log) && i < |log|
    ensures Sampled(log[..i + 1]) <==>
            || (log[i].Tick? && log[i].force)
            || forall j :: 0 <= j < i && Sampled(log[..j + 1]) ==> log[i].t - log[j].t >= 0.04
  {
    hide Sampled;
    SampledStep(log, i);
    forall j | 0 <= j < i && Sampled(log[..j + 1])
      ensures LastSample(log[..i]).Some? && log[j].t <= LastSample(log[..i]).value
    {
      SampledSince(log, j, i);
    }
    if LastSample(log[..i]).Some? {
      var j := SampleTaken(log, i);
    }
  }

  lemma SampledStep(log: seq<Event>, i: nat)
    requires i < |log|
    ensures Sampled(log[..i + 1]) <==>
            || (log[i].Tick? && log[i].force)
            || LastSample(log[..i]).None? || log[i].t - LastSample(log[..i]).value >= 0.04
  {
    assert Init(log[..i + 1]) == log[..i];
  }

  /** The last sample was taken. */
  lemma {:induction false} SampleTaken(log: seq<Event>, i: nat) returns (j: nat)
    requires i <= |log| && LastSample(log[..i]).Some?
    ensures j < i && Sampled(log[..j + 1]) && LastSample(log[..i]).value == log[j].t
  {
    assert i > 0 && Init(log[..i]) == log[..i - 1];
    if Sampled(log[..i]) {
      j := i - 1;
    } else {
      j := SampleTaken(log, i - 1);
    }
  }

  /** Samples that are not forced come at least four fifths of the update period after the one before. */
  lemma {:induction false} SampleSpacing(log: seq<Event>, i: nat, j: nat)
    requires Monotone(log) && i < j < |log|
    requires Sampled(log[..i + 1]) && Sampled(log[..j + 1]) && !(log[j].Tick? && log[j].force)
    ensures log[j].t - log[i].t >= 0.04
  {
    SampledSince(log, i, j);
    assert Init(log[..j + 1]) == log[..j];
  }

  lemma {:induction false} SampledSince(log: seq<Event>, i: nat, j: nat)
    requires Monotone(log) && i < j <= |log| && Sampled(log[..i + 1])
    ensures LastSample(log[..j]).Some? && log[i].t <= LastSample(log[..j]).value
    decreases j
  {
    if j > i + 1 {
      SampledSince(log, i, j - 1);
      assert Init(log[..j]) == log[..j - 1];
    }
  }

  lemma ZeroRate(w: Windows, t: real)
    requires Positive(w)
    ensures RateRow(w, t, 0) == [t, 0.0] && LostRow(w, t, 0) == [t, if w.lostHz > 0.0 then 1.0 else 0.0]
  {
    assert 0.0 / w.rate == 0.0;
  }

  /** No message for a whole window: the next sample says the rate is zero, and lost if any rate is asked for. */
  lemma SilenceIsLost(w: Windows, log: seq<Event>)
    requires Positive(w) && Monotone(log) && log != [] && Sampled(log)
    requires forall i :: 0 <= i < |log| && log[i].Arrival? ==> log[i].t < Last(log).t - w.rate
    ensures RateRows(w, log) == RateRows(w, Init(log)) + [[Last(log).t, 0.0]]
    ensures LostRows(w, log) == LostRows(w, Init(log)) + [[Last(log).t, if w.lostHz > 0.0 then 1.0 else 0.0]]
  {
    hide Arrivals, RateRow, LostRow;
    ArrivalCount(w, log);
    var kept := set i | 0 <= i < |log| && log[i].Arrival? && !(log[i].t < Last(log).t - w.rate);
    assert kept == {};
    ZeroRate(w, Last(log).t);
  }
}
