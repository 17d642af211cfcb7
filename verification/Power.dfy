/** The plug's power meter: a bounded buffer of samples and their time-weighted average. */
module Power {
  import opened Arithmetic
  import opened Text

  const WINDOW_MAX := 180

  datatype Sample = Sample(at: real, watts: real)

  /** The newest `WINDOW_MAX` samples. */
  function Newest(history: seq<Sample>): seq<Sample> {
    if |history| <= WINDOW_MAX then history else history[|history| - WINDOW_MAX..]
  }

  function Window(samples: seq<Sample>, since: real): seq<Sample> {
    if samples == [] then []
    else
      var last := samples[|samples| - 1];
      Window(samples[..|samples| - 1], since) + if last.at >= since then [last] else []
  }

  function Segment(a: Sample, b: Sample): real {
    (a.watts + b.watts) / 2.0 * (b.at - a.at)
  }

  /** The area under the straight lines between the samples. */
  function Area(s: seq<Sample>): real {
    if |s| < 2 then 0.0 else Area(s[..|s| - 1]) + Segment(s[|s| - 2], s[|s| - 1])
  }

  function Span(s: seq<Sample>): real
    requires s != []
  {
    s[|s| - 1].at - s[0].at
  }

  function Average(window: seq<Sample>, last: Option<real>): Option<real> {
    if window == [] then last
    else if Span(window) > 0.0 then Some(Area(window) / Span(window))
    else Some(window[|window| - 1].watts)
  }

  predicate AllOlder(s: seq<Sample>, since: real) {
    forall i :: 0 <= i < |s| ==> s[i].at < since
  }

  /** Of all samples only the i-th is recent enough. */
  predicate OnlyRecent(s: seq<Sample>, i: int, since: real) {
    0 <= i < |s| && s[i].at >= since && AllOlder(s[..i], since) && AllOlder(s[i + 1..], since)
  }

  lemma {:induction false} NoneInWindow(s: seq<Sample>, since: real)
    requires AllOlder(s, since)
    ensures Window(s, since) == []
  {
    if s != [] {
      NoneInWindow(s[..|s| - 1], since);
    }
  }

  lemma {:induction false} OneInWindow(s: seq<Sample>, i: nat, since: real)
    requires OnlyRecent(s, i, since)
    ensures Window(s, since) == [s[i]]
  {
    var n := |s| - 1;
    if i == n {
      NoneInWindow(s[..n], since);
    } else {
      assert s[..n][..i] == s[..i] && s[..n][i + 1..] == s[i + 1..][..n - i - 1];
      assert s[i + 1..][n - i - 1] == s[n];
      OneInWindow(s[..n], i, since);
    }
  }

  class KasaPowerMeter {
    const enabled: bool
    var samples: seq<Sample>
    var lastWatts: Option<real>
    ghost var history: seq<Sample>

    ghost predicate Valid()
      reads this
    {
      && samples == Newest(history)
      && lastWatts == if history == [] then None else Some(history[|history| - 1].watts)
    }

    constructor (enabled: bool)
      ensures Valid() && history == [] && this.enabled == enabled
    {
      this.enabled := enabled;
      samples, lastWatts, history := [], None, [];
    }

    /** `reading` is None when the plug could not be read or shows no power. */
    method Poll(reading: Option<real>, now: real) returns (watts: Option<real>)
      requires Valid()
      modifies this
      ensures Valid() && watts == if enabled then reading else None
      ensures samples == if |history| <= 180 then history else history[|history| - 180..]
      ensures history == if watts.Some? then old(history) + [Sample(now, watts.value)] else old(history)
    {
      if !enabled || reading == None {
        return None;
      }
      lastWatts := reading;
      samples := samples + [Sample(now, reading.value)];
      if |samples| > WINDOW_MAX {
        samples := samples[1..];
      }
      history := history + [Sample(now, reading.value)];
      return reading;
    }

    method AverageWattsSince(since: real) returns (average: Option<real>)
      requires Valid()
      ensures average == Average(Window(samples, since), lastWatts)
      ensures average == None <==> history == []
      ensures AllOlder(samples, since) ==> average == lastWatts
      ensures forall i :: OnlyRecent(samples, i, since) ==> average == Some(samples[i].watts)
    {
      if AllOlder(samples, since) {
        NoneInWindow(samples, since);
      }
      forall i | OnlyRecent(samples, i, since) ensures Window(samples, since) == [samples[i]] {
        OneInWindow(samples, i, since);
      }
      hide Segment, AllOlder, OnlyRecent;
      var window := [];
      for i := 0 to |samples|
        invariant window == Window(samples[..i], since)
      {
        assert samples[..i + 1][..i] == samples[..i];
        if samples[i].at >= since {
          window := window + [samples[i]];
        }
      }
      assert samples[..|samples|] == samples;
      if window == [] {
        return lastWatts;
      }
      if |window| == 1 {
        return Some(window[0].watts);
      }
      var totalWs, totalSec := 0.0, 0.0;
      for i := 1 to |window|
        invariant totalWs == Area(window[..i]) && totalSec == window[i - 1].at - window[0].at
      {
        assert window[..i + 1][..i] == window[..i];
        totalWs := totalWs + Segment(window[i - 1], window[i]);
        totalSec := totalSec + (window[i].at - window[i - 1].at);
      }
      assert window[..|window|] == window;
      return Some(if totalSec > 0.0 then totalWs / totalSec else window[|window| - 1].watts);
    }
  }

  // ---- which samples count ----------------------------------------------------------------

  /** The clock never runs backwards. */
  predicate InTime(s: seq<Sample>) {
    forall i, j :: 0 <= i < j < |s| ==> s[i].at <= s[j].at
  }

  lemma {:induction false} WindowConcat(a: seq<Sample>, b: seq<Sample>, since: real)
    ensures Window(a + b, since) == Window(a, since) + Window(b, since)
  {
    if b == [] {
      assert a + b == a;
    } else {
      assert (a + b)[..|a + b| - 1] == a + b[..|b| - 1];
      WindowConcat(a, b[..|b| - 1], since);
    }
  }

  /** In time order the older part of a history is out of the window exactly if its newest
      sample is. */
  lemma OlderPart(older: seq<Sample>, since: real)
    requires InTime(older) && older != []
    ensures Window(older, since) == [] <==> older[|older| - 1].at < since
  {
    var n := |older| - 1;
    if older[n].at < since {
      NoneInWindow(older, since);
    }
    hide InTime;
  }

  lemma SuffixOnly(a: seq<Sample>, b: seq<Sample>)
    ensures b == a + b <==> a == []
  {
    if a != [] {
      assert |a + b| > |b|;
    } else {
      assert a + b == b;
    }
  }

  /** The average over the buffer is over every sample ever taken since then exactly if the
      newest sample that was dropped is older than that. */
  lemma BufferSuffices(history: seq<Sample>, since: real)
    requires InTime(history)
    ensures Window(Newest(history), since) == Window(history, since)
      <==> (|history| <= WINDOW_MAX || history[|history| - WINDOW_MAX - 1].at < since)
  {
    if |history| > WINDOW_MAX {
      var k := |history| - WINDOW_MAX;
      var older, newest := history[..k], history[k..];
      assert history == older + newest;
      OlderPart(older, since);
      WindowConcat(older, newest, since);
      hide Window, InTime;
      SuffixOnly(Window(older, since), Window(newest, since));
    }
  }

  // ---- the average is the average ------------------------------------------------------------

  lemma SegmentBounds(a: Sample, b: Sample, low: real, high: real)
    requires a.at <= b.at && low <= a.watts <= high && low <= b.watts <= high
    ensures low * (b.at - a.at) <= Segment(a, b) <= high * (b.at - a.at)
  {
    var dt, w := b.at - a.at, (a.watts + b.watts) / 2.0;
    assert (w - low) * dt >= 0.0 && (high - w) * dt >= 0.0;
  }

  /** One more stretch of time `y` after a stretch `x`. */
  lemma BoundsAdd(low: real, high: real, x: real, y: real, area: real, segment: real)
    requires low * x <= area <= high * x && low * y <= segment <= high * y
    ensures low * (x + y) <= area + segment <= high * (x + y)
  {
    Distributes(low, x, y);
    Distributes(high, x, y);
  }

  lemma Distributes(c: real, x: real, y: real)
    ensures c * (x + y) == c * x + c * y
  {}

  lemma OneSample(s: seq<Sample>, low: real, high: real)
    requires |s| == 1
    ensures low * Span(s) == 0.0 == high * Span(s) && Area(s) == 0.0
  {}

  lemma AreaMore(s: seq<Sample>)
    requires |s| > 1
    ensures var n := |s| - 1;
      Area(s) == Area(s[..n]) + Segment(s[n - 1], s[n]) && Span(s) == Span(s[..n]) + (s[n].at - s[n - 1].at)
  {
    hide Segment;
  }

  lemma {:induction false} AreaBounds(s: seq<Sample>, low: real, high: real)
    requires s != [] && InTime(s) && forall i :: 0 <= i < |s| ==> low <= s[i].watts <= high
    ensures low * Span(s) <= Area(s) <= high * Span(s)
  {
    hide Segment, Area, Span;
    if |s| == 1 {
      OneSample(s, low, high);
    } else {
      var n := |s| - 1;
      AreaBounds(s[..n], low, high);
      SegmentBounds(s[n - 1], s[n], low, high);
      AreaMore(s);
      BoundsAdd(low, high, Span(s[..n]), s[n].at - s[n - 1].at, Area(s[..n]), Segment(s[n - 1], s[n]));
    }
  }

  /** An average lies between the least and the greatest power in its window, whatever the
      spacing of the samples. */
  lemma AverageIsBetween(window: seq<Sample>, last: Option<real>, low: real, high: real)
    requires window != [] && InTime(window) && forall i :: 0 <= i < |window| ==> low <= window[i].watts <= high
    ensures Average(window, last).Some? && low <= Average(window, last).value <= high
  {
    if Span(window) > 0.0 {
      AreaBounds(window, low, high);
      QuotientBounds(Area(window), Span(window), low, high);
    }
  }

  /** The average times the length of its window is the area, if the window has a length;
      otherwise the average is its newest sample, and without a sample the last reading. */
  lemma AverageExactly(window: seq<Sample>, last: Option<real>)
    ensures window == [] ==> Average(window, last) == last
    ensures window != [] ==>
      var average := Average(window, last); var newest := window[|window| - 1];
      && average.Some?
      && (newest.at > window[0].at ==> average.value * (newest.at - window[0].at) == Area(window))
      && (newest.at <= window[0].at ==> average.value == newest.watts)
  {
    hide Area;
  }

  /** Areas add up where two stretches meet in a sample. */
  lemma {:induction false} AreaSplits(a: seq<Sample>, m: Sample, b: seq<Sample>)
    ensures Area(a + [m] + b) == Area(a + [m]) + Area([m] + b)
  {
    hide Segment;
    if b == [] {
      assert a + [m] + b == a + [m] && [m] + b == [m];
    } else {
      var n := |b| - 1;
      AreaSplits(a, m, b[..n]);
      assert (a + [m] + b)[..|a| + 1 + n] == a + [m] + b[..n];
      assert ([m] + b)[..1 + n] == [m] + b[..n];
    }
  }

  /** The power the straight line from `a` to `b` shows at time `t`. */
  function Between(a: Sample, b: Sample, t: real): Sample
    requires a.at < b.at
  {
    Sample(t, a.watts + (b.watts - a.watts) * ((t - a.at) / (b.at - a.at)))
  }

  lemma SegmentSplits(a: Sample, b: Sample, t: real)
    requires a.at < b.at
    ensures Segment(a, Between(a, b, t)) + Segment(Between(a, b, t), b) == Segment(a, b)
  {
    var dt, x := b.at - a.at, (t - a.at) / (b.at - a.at);
    var rise := b.watts - a.watts;
    assert t - a.at == x * dt;
    var m := Between(a, b, t);
    calc {
      Segment(a, m) + Segment(m, b);
      (2.0 * a.watts + rise * x) / 2.0 * (x * dt) + (2.0 * a.watts + rise + rise * x) / 2.0 * (dt - x * dt);
      (2.0 * a.watts + rise) / 2.0 * dt;
    }
  }

  /** The area is that of the piecewise-linear curve: reading the curve once more at any
      moment between two samples changes neither the area nor the average. */
  lemma ExtraReadingChangesNothing(s: seq<Sample>, a: Sample, b: Sample, rest: seq<Sample>, t: real, last: Option<real>)
    requires a.at < b.at
    ensures Area(s + [a, Between(a, b, t), b] + rest) == Area(s + [a, b] + rest)
    ensures Average(s + [a, Between(a, b, t), b] + rest, last) == Average(s + [a, b] + rest, last)
  {
    var m := Between(a, b, t);
    SegmentSplits(a, b, t);
    hide Segment, Between;
    AreaThrough(s, a, [m], b, rest);
    AreaThrough(s, a, [], b, rest);
    assert [a, m, b] == [a] + [m] + [b] && [a, b] == [a] + [] + [b];
    assert [a, m, b][..2] == [a, m] && [a, m][..1] == [a] && [a, b][..1] == [a];
  }

  lemma AreaThrough(s: seq<Sample>, a: Sample, mid: seq<Sample>, b: Sample, rest: seq<Sample>)
    ensures Area(s + ([a] + mid + [b]) + rest) == Area(s + [a]) + Area([a] + mid + [b]) + Area([b] + rest)
  {
    hide Segment, Area;
    AreaSplits(s + [a] + mid, b, rest);
    AreaSplits(s, a, mid + [b]);
    assert s + ([a] + mid + [b]) + rest == s + [a] + mid + [b] + rest;
    assert s + [a] + (mid + [b]) == s + [a] + mid + [b];
    assert [a] + (mid + [b]) == [a] + mid + [b];
  }
}
