/** The extracted windows are exactly the long maximal runs of the forecast. */
module WeatherLaws {
  import opened Arithmetic
  import opened Weather

  /** Every hour of the run is beyond the threshold, and it cannot be made longer. */
  ghost predicate MaximalRun(kind: Kind, hours: seq<Hour>, threshold: real, r: Run) {
    && r.first < r.past <= |hours|
    && (forall k :: r.first <= k < r.past ==> Beyond(kind, threshold, hours[k].temp))
    && (r.first > 0 ==> !Beyond(kind, threshold, hours[r.first - 1].temp))
    && (r.past < |hours| ==> !Beyond(kind, threshold, hours[r.past].temp))
  }

  ghost predicate LongRun(kind: Kind, hours: seq<Hour>, threshold: real, minHours: real, r: Run) {
    MaximalRun(kind, hours, threshold, r) && Long(hours, r, minHours)
  }

  lemma {:induction false} RunEndStops(kind: Kind, hours: seq<Hour>, threshold: real, i: nat)
    requires i <= |hours|
    ensures var j := RunEnd(kind, hours, threshold, i);
      && (forall k :: i <= k < j ==> Beyond(kind, threshold, hours[k].temp))
      && (j < |hours| ==> !Beyond(kind, threshold, hours[j].temp))
    decreases |hours| - i
  {
    hide Beyond;
    if i < |hours| && Beyond(kind, threshold, hours[i].temp) {
      RunEndStops(kind, hours, threshold, i + 1);
    }
  }

  /** No run reaches across hour `i`. */
  predicate Boundary(kind: Kind, hours: seq<Hour>, threshold: real, i: nat)
    requires i <= |hours|
  {
    i == 0 || i == |hours| || !Beyond(kind, threshold, hours[i - 1].temp) || !Beyond(kind, threshold, hours[i].temp)
  }

  ghost predicate AllLong(kind: Kind, hours: seq<Hour>, threshold: real, minHours: real, i: nat, runs: seq<Run>) {
    forall k :: 0 <= k < |runs| ==> LongRun(kind, hours, threshold, minHours, runs[k]) && i <= runs[k].first
  }

  predicate Ordered(runs: seq<Run>) {
    forall k, l :: 0 <= k < l < |runs| ==> runs[k].past < runs[l].first
  }

  lemma RunInFront(kind: Kind, hours: seq<Hour>, threshold: real, minHours: real, r: Run, runs: seq<Run>)
    requires MaximalRun(kind, hours, threshold, r)
    requires AllLong(kind, hours, threshold, minHours, r.past, runs) && Ordered(runs)
    ensures var more := (if Long(hours, r, minHours) then [r] else []) + runs;
      AllLong(kind, hours, threshold, minHours, r.first, more) && Ordered(more)
  {
    hide Beyond, Long;
    forall k | 0 <= k < |runs| ensures r.past < runs[k].first {
      assert Beyond(kind, threshold, hours[runs[k].first].temp);
    }
    hide MaximalRun;
  }

  lemma {:induction false} KeptRunsSound(kind: Kind, hours: seq<Hour>, threshold: real, minHours: real, i: nat)
    requires i <= |hours| && Boundary(kind, hours, threshold, i)
    ensures var runs := KeptRuns(kind, hours, threshold, minHours, i);
      AllLong(kind, hours, threshold, minHours, i, runs) && Ordered(runs)
    decreases |hours| - i
  {
    hide Beyond, Long, Ordered, LongRun;
    if i == |hours| {
      NoRuns(kind, hours, threshold, minHours, i);
    } else if Beyond(kind, threshold, hours[i].temp) {
      var r := Run(i, RunEnd(kind, hours, threshold, i));
      RunEndStops(kind, hours, threshold, i);
      KeptRunsSound(kind, hours, threshold, minHours, r.past);
      hide AllLong;
      RunInFront(kind, hours, threshold, minHours, r, KeptRuns(kind, hours, threshold, minHours, r.past));
    } else {
      KeptRunsSound(kind, hours, threshold, minHours, i + 1);
      assert forall runs :: AllLong(kind, hours, threshold, minHours, i + 1, runs) ==>
        AllLong(kind, hours, threshold, minHours, i, runs);
    }
  }

  lemma NoRuns(kind: Kind, hours: seq<Hour>, threshold: real, minHours: real, i: nat)
    ensures AllLong(kind, hours, threshold, minHours, i, []) && Ordered([])
  {}

  lemma {:induction false} KeptRunsComplete(kind: Kind, hours: seq<Hour>, threshold: real, minHours: real, i: nat,
                                            r: Run)
    requires i <= r.first && LongRun(kind, hours, threshold, minHours, r)
    ensures r in KeptRuns(kind, hours, threshold, minHours, i)
    decreases |hours| - i
  {
    hide Beyond, Long;
    assert Beyond(kind, threshold, hours[r.first].temp);
    if Beyond(kind, threshold, hours[i].temp) {
      var j := RunEnd(kind, hours, threshold, i);
      RunEndStops(kind, hours, threshold, i);
      if r.first == i {
        assert r.past == j;
      } else {
        assert r.first >= j;
        KeptRunsComplete(kind, hours, threshold, minHours, j, r);
      }
    } else {
      KeptRunsComplete(kind, hours, threshold, minHours, i + 1, r);
    }
  }

  lemma KeptRunsExactly(kind: Kind, hours: seq<Hour>, threshold: real, minHours: real, r: Run)
    ensures r in KeptRuns(kind, hours, threshold, minHours, 0) <==> LongRun(kind, hours, threshold, minHours, r)
  {
    hide Beyond, Long, MaximalRun;
    KeptRunsSound(kind, hours, threshold, minHours, 0);
    if LongRun(kind, hours, threshold, minHours, r) {
      KeptRunsComplete(kind, hours, threshold, minHours, 0, r);
    }
  }

  /** `cold_windows` and `hot_windows` return, in order, one window for each maximal run that
      lasts at least `minHours`, and for nothing else. */
  lemma WindowsAreLongRuns(kind: Kind, hours: seq<Hour>, threshold: real, minHours: real) returns (runs: seq<Run>)
    ensures var windows := Windows(kind, hours, threshold, minHours);
      && |windows| == |runs| && Within(hours, runs)
      && forall k :: 0 <= k < |runs| ==> windows[k] == WindowOf(kind, hours, runs[k])
    ensures forall k, l :: 0 <= k < l < |runs| ==> runs[k].past < runs[l].first
    ensures forall r :: r in runs <==> LongRun(kind, hours, threshold, minHours, r)
  {
    hide Beyond, Long, LongRun, KeptRuns, WindowOf, AllLong;
    runs := KeptRuns(kind, hours, threshold, minHours, 0);
    KeptWithin(kind, hours, threshold, minHours, 0);
    KeptRunsSound(kind, hours, threshold, minHours, 0);
    forall r ensures r in runs <==> LongRun(kind, hours, threshold, minHours, r) {
      KeptRunsExactly(kind, hours, threshold, minHours, r);
    }
    hide WindowsOf;
  }

  // ---- temperatures ---------------------------------------------------------------------

  lemma {:induction false} ExtremeBounds(kind: Kind, part: seq<Hour>)
    requires part != []
    ensures forall k :: 0 <= k < |part| ==> !Beyond(kind, Extreme(kind, part), part[k].temp)
    ensures exists k :: 0 <= k < |part| && part[k].temp == Extreme(kind, part)
  {
    if |part| > 1 {
      ExtremeBounds(kind, part[1..]);
      var rest := Extreme(kind, part[1..]);
      if Beyond(kind, rest, part[0].temp) {
        assert part[0].temp == Extreme(kind, part);
      } else {
        var k :| 0 <= k < |part[1..]| && part[1..][k].temp == rest;
        assert part[k + 1].temp == Extreme(kind, part);
      }
    } else {
      assert part[0].temp == Extreme(kind, part);
    }
  }

  lemma {:induction false} SumBounds(part: seq<Hour>, low: real, high: real)
    requires forall k :: 0 <= k < |part| ==> low <= part[k].temp <= high
    ensures low * |part| as real <= Sum(part) <= high * |part| as real
  {
    if part != [] {
      SumBounds(part[1..], low, high);
      assert |part| as real == |part[1..]| as real + 1.0;
    }
  }

  lemma MeanBounds(part: seq<Hour>, low: real, high: real)
    requires part != [] && forall k :: 0 <= k < |part| ==> low <= part[k].temp <= high
    ensures low <= Mean(part) <= high
  {
    SumBounds(part, low, high);
    var n := |part| as real;
    QuotientBounds(Sum(part), n, low, high);
  }

  /** Running totals of the temperatures. */
  ghost predicate RunningTotals(part: seq<Hour>, sums: seq<real>) {
    && |sums| == |part| + 1 && sums[0] == 0.0
    && forall i :: 0 <= i < |part| ==> sums[i + 1] == sums[i] + part[i].temp
  }

  lemma {:induction false} SumIsTotal(part: seq<Hour>, sums: seq<real>)
    requires RunningTotals(part, sums)
    ensures sums[|part|] == Sum(part)
  {
    if part != [] {
      var rest := seq(|part|, i requires 0 <= i < |part| => sums[i + 1] - part[0].temp);
      assert forall i :: 0 <= i < |part| - 1 ==> part[1..][i] == part[i + 1];
      SumIsTotal(part[1..], rest);
    }
  }

  /** A window's mean times its number of hours is the total of their temperatures. */
  lemma MeanIsAverage(kind: Kind, hours: seq<Hour>, r: Run, sums: seq<real>)
    requires r.first < r.past <= |hours| && RunningTotals(hours[r.first..r.past], sums)
    ensures WindowOf(kind, hours, r).mean * (r.past - r.first) as real == sums[r.past - r.first]
  {
    var part := hours[r.first..r.past];
    SumIsTotal(part, sums);
    hide Sum, Extreme;
    assert Sum(part) / |part| as real * |part| as real == Sum(part);
  }

  lemma {:induction false} OtherExtreme(kind: Kind, part: seq<Hour>, threshold: real) returns (bound: real)
    requires part != [] && forall k :: 0 <= k < |part| ==> Beyond(kind, threshold, part[k].temp)
    ensures Beyond(kind, threshold, bound)
    ensures forall k :: 0 <= k < |part| ==> !Beyond(kind, part[k].temp, bound)
  {
    if |part| == 1 {
      bound := part[0].temp;
    } else {
      bound := OtherExtreme(kind, part[1..], threshold);
      if Beyond(kind, part[0].temp, bound) {
        bound := part[0].temp;
      }
      forall k | 0 <= k < |part| ensures !Beyond(kind, part[k].temp, bound) {
        if k > 0 {
          assert part[k] == part[1..][k - 1];
        }
      }
    }
  }

  /** A window's extreme is the coldest (hottest) hour of its run, its mean lies strictly
      beyond the threshold and is no more extreme than that. */
  lemma WindowTemperatures(kind: Kind, hours: seq<Hour>, threshold: real, r: Run)
    requires MaximalRun(kind, hours, threshold, r)
    ensures var w := WindowOf(kind, hours, r);
      && (forall k :: r.first <= k < r.past ==> !Beyond(kind, w.extreme, hours[k].temp))
      && (exists k :: r.first <= k < r.past && hours[k].temp == w.extreme)
      && (kind == Cold ==> w.extreme <= w.mean < threshold)
      && (kind == Hot ==> threshold < w.mean <= w.extreme)
  {
    var part := hours[r.first..r.past];
    ExtremeBounds(kind, part);
    hide Mean, Extreme;
    var e := Extreme(kind, part);
    var k :| 0 <= k < |part| && part[k].temp == e;
    assert hours[r.first + k].temp == e;
    assert forall k :: r.first <= k < r.past ==> hours[k] == part[k - r.first];
    var bound := OtherExtreme(kind, part, threshold);
    if kind == Cold {
      MeanBounds(part, e, bound);
    } else {
      MeanBounds(part, bound, e);
    }
  }

  // ---- the hourly grid ----------------------------------------------------------------------

  predicate Hourly(hours: seq<Hour>) {
    forall k :: 0 <= k < |hours| ==> hours[k].time == hours[0].time + HOUR * k
  }

  lemma WholeHours(n: int, minHours: real)
    ensures DurationHours(0, HOUR * n) == n as real
  {
    assert (HOUR * n) as real == 3600.0 * n as real;
  }

  /** On the grid a window lasts as many hours as its run has. */
  lemma GridWindow(kind: Kind, hours: seq<Hour>, r: Run, minHours: real)
    requires Hourly(hours) && r.first < r.past <= |hours|
    ensures var w, origin := WindowOf(kind, hours, r), hours[0].time;
      && w.start == origin + HOUR * r.first && w.end == origin + HOUR * r.past
      && DurationHours(w.start, w.end) == (r.past - r.first) as real
      && (Long(hours, r, minHours) <==> (r.past - r.first) as real >= minHours)
  {
    hide Mean, Extreme;
    var w := WindowOf(kind, hours, r);
    var part := hours[r.first..r.past];
    assert part[0] == hours[r.first] && part[r.past - r.first - 1] == hours[r.past - 1];
    WholeHours(r.past - r.first, minHours);
    assert w.end - w.start == HOUR * (r.past - r.first) - 0;
  }

  /** On the grid the windows are sorted and at least an hour apart. */
  lemma WindowsApart(kind: Kind, hours: seq<Hour>, threshold: real, minHours: real, k: nat, l: nat)
    requires Hourly(hours) && k < l < |Windows(kind, hours, threshold, minHours)|
    ensures var windows := Windows(kind, hours, threshold, minHours);
      windows[k].end + HOUR <= windows[l].start
  {
    hide Windows, Long, WindowOf, LongRun;
    var runs := WindowsAreLongRuns(kind, hours, threshold, minHours);
    GridWindow(kind, hours, runs[k], minHours);
    GridWindow(kind, hours, runs[l], minHours);
  }

  /** With the cold threshold at or below the hot one no hour is in a cold and a hot run, so a
      cold and a hot window share at most an end point. */
  lemma ColdAndHotApart(hours: seq<Hour>, cold: real, hot: real, minHours: real, w: Window, v: Window)
    requires Hourly(hours) && cold <= hot
    requires w in Windows(Cold, hours, cold, minHours) && v in Windows(Hot, hours, hot, minHours)
    ensures w.end <= v.start || v.end <= w.start
  {
    hide Windows, Long, WindowOf, LongRun, MaximalRun;
    var colds := WindowsAreLongRuns(Cold, hours, cold, minHours);
    var hots := WindowsAreLongRuns(Hot, hours, hot, minHours);
    var i :| 0 <= i < |colds| && WindowOf(Cold, hours, colds[i]) == w;
    var j :| 0 <= j < |hots| && WindowOf(Hot, hours, hots[j]) == v;
    var c, h := colds[i], hots[j];
    assert c in colds && h in hots;
    GridWindow(Cold, hours, c, minHours);
    GridWindow(Hot, hours, h, minHours);
    RunsApart(hours, cold, hot, minHours, c, h);
  }

  lemma RunsApart(hours: seq<Hour>, cold: real, hot: real, minHours: real, c: Run, h: Run)
    requires cold <= hot && LongRun(Cold, hours, cold, minHours, c) && LongRun(Hot, hours, hot, minHours, h)
    ensures c.past <= h.first || h.past <= c.first
  {
    var k := if c.first <= h.first then h.first else c.first;
    assert c.first <= k < c.past ==> Beyond(Cold, cold, hours[k].temp);
    assert h.first <= k < h.past ==> Beyond(Hot, hot, hours[k].temp);
  }
}
