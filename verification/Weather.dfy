/** Cold and hot windows of an hourly forecast, and the local listing schedule. Times are in
    seconds. The source's cold and hot extractors are mirror images; `Kind` tells them apart. */
module Weather {
  import opened Text

  const HOUR := 3600

  datatype Kind = Cold | Hot
  datatype Hour = Hour(time: int, temp: real)
  datatype Window = Window(start: int, end: int, extreme: real, mean: real)

  /** The hours from `first` up to but not including `past`. */
  datatype Run = Run(first: nat, past: nat)

  predicate Beyond(kind: Kind, threshold: real, temp: real) {
    match kind
    case Cold => temp < threshold
    case Hot => temp > threshold
  }

  function Sum(hours: seq<Hour>): real {
    if hours == [] then 0.0 else hours[0].temp + Sum(hours[1..])
  }

  function Extreme(kind: Kind, hours: seq<Hour>): real
    requires hours != []
  {
    if |hours| == 1 then hours[0].temp
    else var rest := Extreme(kind, hours[1..]); if Beyond(kind, rest, hours[0].temp) then hours[0].temp else rest
  }

  function Mean(hours: seq<Hour>): real
    requires hours != []
  {
    Sum(hours) / |hours| as real
  }

  function DurationHours(start: int, end: int): real {
    (end - start) as real / 3600.0
  }

  function WindowOf(kind: Kind, hours: seq<Hour>, r: Run): Window
    requires r.first < r.past <= |hours|
  {
    var part := hours[r.first..r.past];
    Window(part[0].time, part[|part| - 1].time + HOUR, Extreme(kind, part), Mean(part))
  }

  predicate Long(hours: seq<Hour>, r: Run, minHours: real)
    requires r.first < r.past <= |hours|
  {
    DurationHours(hours[r.first].time, hours[r.past - 1].time + HOUR) >= minHours
  }

  /** One past the stretch of hours beyond the threshold that begins at `i`. */
  function RunEnd(kind: Kind, hours: seq<Hour>, threshold: real, i: nat): (j: nat)
    requires i <= |hours|
    ensures i <= j <= |hours|
    ensures i < |hours| && Beyond(kind, threshold, hours[i].temp) ==> i < j
    decreases |hours| - i
  {
    if i < |hours| && Beyond(kind, threshold, hours[i].temp) then RunEnd(kind, hours, threshold, i + 1) else i
  }

  /** The runs from hour `i` on that are long enough, in order. */
  function KeptRuns(kind: Kind, hours: seq<Hour>, threshold: real, minHours: real, i: nat): seq<Run>
    requires i <= |hours|
    decreases |hours| - i
  {
    if i == |hours| then []
    else if !Beyond(kind, threshold, hours[i].temp) then KeptRuns(kind, hours, threshold, minHours, i + 1)
    else
      var r := Run(i, RunEnd(kind, hours, threshold, i));
      (if Long(hours, r, minHours) then [r] else []) + KeptRuns(kind, hours, threshold, minHours, r.past)
  }

  predicate Within(hours: seq<Hour>, runs: seq<Run>) {
    forall k :: 0 <= k < |runs| ==> runs[k].first < runs[k].past <= |hours|
  }

  function WindowsOf(kind: Kind, hours: seq<Hour>, runs: seq<Run>): (windows: seq<Window>)
    requires Within(hours, runs)
    ensures |windows| == |runs|
    ensures forall k :: 0 <= k < |runs| ==> windows[k] == WindowOf(kind, hours, runs[k])
  {
    if runs == [] then []
    else [WindowOf(kind, hours, runs[0])] + WindowsOf(kind, hours, runs[1..])
  }

  lemma {:induction false} KeptWithin(kind: Kind, hours: seq<Hour>, threshold: real, minHours: real, i: nat)
    requires i <= |hours|
    ensures Within(hours, KeptRuns(kind, hours, threshold, minHours, i))
    decreases |hours| - i
  {
    if i < |hours| {
      if Beyond(kind, threshold, hours[i].temp) {
        KeptWithin(kind, hours, threshold, minHours, RunEnd(kind, hours, threshold, i));
      } else {
        KeptWithin(kind, hours, threshold, minHours, i + 1);
      }
    }
  }

  function Windows(kind: Kind, hours: seq<Hour>, threshold: real, minHours: real): seq<Window> {
    KeptWithin(kind, hours, threshold, minHours, 0);
    WindowsOf(kind, hours, KeptRuns(kind, hours, threshold, minHours, 0))
  }

  lemma {:induction false} WindowsOfMore(kind: Kind, hours: seq<Hour>, runs: seq<Run>, r: Run)
    requires Within(hours, runs) && r.first < r.past <= |hours|
    ensures Within(hours, runs + [r])
    ensures WindowsOf(kind, hours, runs + [r]) == WindowsOf(kind, hours, runs) + [WindowOf(kind, hours, r)]
  {}

  lemma KeptSkips(kind: Kind, hours: seq<Hour>, threshold: real, minHours: real, i: nat)
    requires i < |hours| && !Beyond(kind, threshold, hours[i].temp)
    ensures RunEnd(kind, hours, threshold, i) == i
    ensures KeptRuns(kind, hours, threshold, minHours, i) == KeptRuns(kind, hours, threshold, minHours, i + 1)
  {}

  lemma RunGoesOn(kind: Kind, hours: seq<Hour>, threshold: real, i: nat)
    requires i < |hours| && Beyond(kind, threshold, hours[i].temp)
    ensures RunEnd(kind, hours, threshold, i) == RunEnd(kind, hours, threshold, i + 1)
  {}

  /** Closing the open run moves it from what is still to come to what is kept. */
  lemma RunCloses(kind: Kind, hours: seq<Hour>, threshold: real, minHours: real, runs: seq<Run>, start: nat)
    requires start < |hours| && Beyond(kind, threshold, hours[start].temp)
    ensures var r := Run(start, RunEnd(kind, hours, threshold, start));
      (if Long(hours, r, minHours) then runs + [r] else runs) + KeptRuns(kind, hours, threshold, minHours, r.past)
      == runs + KeptRuns(kind, hours, threshold, minHours, start)
  {
    hide Beyond, Long;
  }

  lemma RunsEnd(kind: Kind, hours: seq<Hour>, threshold: real, minHours: real)
    ensures KeptRuns(kind, hours, threshold, minHours, |hours|) == []
    ensures RunEnd(kind, hours, threshold, |hours|) == |hours|
  {}

  /** `cold_windows` and `hot_windows`: one pass with the start of the open run. */
  method ExtractWindows(kind: Kind, hours: seq<Hour>, threshold: real, minHours: real) returns (windows: seq<Window>)
    ensures windows == Windows(kind, hours, threshold, minHours)
  {
    hide Beyond, Long, WindowOf, RunEnd, KeptRuns;
    windows := [];
    ghost var runs: seq<Run> := [];
    var runStart: Option<nat> := None;
    for i := 0 to |hours|
      invariant runStart.Some? ==> runStart.value < i && Beyond(kind, threshold, hours[runStart.value].temp)
      invariant runStart.Some? ==> RunEnd(kind, hours, threshold, runStart.value) == RunEnd(kind, hours, threshold, i)
      invariant Within(hours, runs) && windows == WindowsOf(kind, hours, runs)
      invariant runs + KeptRuns(kind, hours, threshold, minHours, if runStart.Some? then runStart.value else i)
             == KeptRuns(kind, hours, threshold, minHours, 0)
    {
      var beyond := Beyond(kind, threshold, hours[i].temp);
      if beyond {
        RunGoesOn(kind, hours, threshold, i);
      } else {
        KeptSkips(kind, hours, threshold, minHours, i);
      }
      if beyond && runStart == None {
        runStart := Some(i);
      } else if !beyond && runStart != None {
        RunCloses(kind, hours, threshold, minHours, runs, runStart.value);
        WindowsOfMore(kind, hours, runs, Run(runStart.value, i));
        windows := MaybeAddWindow(kind, windows, hours, runStart.value, i, minHours);
        runs := if Long(hours, Run(runStart.value, i), minHours) then runs + [Run(runStart.value, i)] else runs;
        runStart := None;
      }
    }
    RunsEnd(kind, hours, threshold, minHours);
    if runStart != None {
      RunCloses(kind, hours, threshold, minHours, runs, runStart.value);
      WindowsOfMore(kind, hours, runs, Run(runStart.value, |hours|));
      windows := MaybeAddWindow(kind, windows, hours, runStart.value, |hours|, minHours);
      ghost var r := Run(runStart.value, |hours|);
      runs := if Long(hours, r, minHours) then runs + [r] else runs;
    }
    assert runs + [] == runs;
  }

  method MaybeAddWindow(kind: Kind, windows: seq<Window>, hours: seq<Hour>, start: nat, end: nat, minHours: real)
    returns (after: seq<Window>)
    requires start < end <= |hours|
    ensures var r := Run(start, end);
      after == if Long(hours, r, minHours) then windows + [WindowOf(kind, hours, r)] else windows
  {
    hide Mean, Extreme, DurationHours;
    var part := hours[start..end];
    var windowStart := part[0].time;
    var windowEnd := part[|part| - 1].time + HOUR;
    var duration := DurationHours(windowStart, windowEnd);
    if duration < minHours {
      return windows;
    }
    after := windows + [Window(windowStart, windowEnd, Extreme(kind, part), Mean(part))];
  }

  // ---- the schedule ----------------------------------------------------------------------

  datatype Schedule = Schedule(shouldList: bool, nextStart: Option<int>, nextEnd: Option<int>)

  predicate Covers(w: Window, now: int) {
    w.start <= now <= w.end
  }

  function Future(windows: seq<Window>, now: int): seq<Window> {
    if windows == [] then []
    else (if windows[0].start > now then [windows[0]] else []) + Future(windows[1..], now)
  }

  function Insert(w: Window, sorted: seq<Window>): seq<Window> {
    if sorted == [] || w.start <= sorted[0].start then [w] + sorted
    else [sorted[0]] + Insert(w, sorted[1..])
  }

  /** Stable, by start. */
  function Sorted(windows: seq<Window>): seq<Window> {
    if windows == [] then [] else Insert(windows[0], Sorted(windows[1..]))
  }

  function HotWindows(hours: seq<Hour>, hotThreshold: Option<real>, minHours: real): seq<Window> {
    if hotThreshold.Some? then Windows(Hot, hours, hotThreshold.value, minHours) else []
  }

  function BuildSchedule(hours: seq<Hour>, threshold: real, hotThreshold: Option<real>, minHours: real, now: int)
    : Schedule
  {
    var cold := Windows(Cold, hours, threshold, minHours);
    var hot := HotWindows(hours, hotThreshold, minHours);
    var currentlyCold := exists w :: w in cold && Covers(w, now);
    var currentlyHot := exists w :: w in hot && Covers(w, now);
    var future := Sorted(Future(cold, now) + Future(hot, now));
    Schedule(!currentlyCold && !currentlyHot,
             if future == [] then None else Some(future[0].start),
             if future == [] then None else Some(future[0].end))
  }
}
