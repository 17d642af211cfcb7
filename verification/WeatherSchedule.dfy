/** What the local schedule says hour by hour, and what the listing state machine makes of it. */
module WeatherSchedule {
  import opened Text
  import opened Weather
  import opened WeatherLaws
  import Vast

  /** Hour `k` lies in a run beyond the threshold that is long enough. */
  ghost predicate InLongRun(kind: Kind, hours: seq<Hour>, threshold: real, minHours: real, k: int) {
    exists r :: LongRun(kind, hours, threshold, minHours, r) && r.first <= k < r.past
  }

  ghost predicate Covered(kind: Kind, hours: seq<Hour>, threshold: real, minHours: real, now: int) {
    exists w :: w in Windows(kind, hours, threshold, minHours) && Covers(w, now)
  }

  /** The window a long run gives, on the grid. */
  lemma RunWindow(kind: Kind, hours: seq<Hour>, threshold: real, minHours: real, r: Run)
    requires Hourly(hours) && LongRun(kind, hours, threshold, minHours, r)
    ensures WindowOf(kind, hours, r) in Windows(kind, hours, threshold, minHours)
    ensures WindowOf(kind, hours, r).start == hours[0].time + HOUR * r.first
    ensures WindowOf(kind, hours, r).end == hours[0].time + HOUR * r.past
  {
    hide Windows, Long, WindowOf, MaximalRun;
    var runs := WindowsAreLongRuns(kind, hours, threshold, minHours);
    assert r in runs;
    GridWindow(kind, hours, r, minHours);
  }

  lemma WindowRun(kind: Kind, hours: seq<Hour>, threshold: real, minHours: real, w: Window) returns (r: Run)
    requires Hourly(hours) && w in Windows(kind, hours, threshold, minHours)
    ensures LongRun(kind, hours, threshold, minHours, r)
    ensures w.start == hours[0].time + HOUR * r.first && w.end == hours[0].time + HOUR * r.past
  {
    hide Windows, Long, WindowOf, MaximalRun;
    var runs := WindowsAreLongRuns(kind, hours, threshold, minHours);
    var i :| 0 <= i < |runs| && Windows(kind, hours, threshold, minHours)[i] == w;
    r := runs[i];
    assert r in runs;
    GridWindow(kind, hours, r, minHours);
  }

  lemma MomentOnGrid(origin: int, now: int, k: int, first: int, past: int)
    requires origin + HOUR * k <= now < origin + HOUR * k + HOUR && first < past
    ensures origin + HOUR * first <= now <= origin + HOUR * past <==>
      first <= k < past || (now == origin + HOUR * k && first <= k - 1 < past)
  {}

  lemma CoveredInHour(kind: Kind, hours: seq<Hour>, threshold: real, minHours: real, now: int, k: nat)
    requires Hourly(hours) && k < |hours| && hours[k].time <= now < hours[k].time + HOUR
    requires Covered(kind, hours, threshold, minHours, now)
    ensures InLongRun(kind, hours, threshold, minHours, k)
      || (now == hours[k].time && InLongRun(kind, hours, threshold, minHours, k - 1))
  {
    hide Windows, LongRun;
    var w :| w in Windows(kind, hours, threshold, minHours) && Covers(w, now);
    var r := WindowRun(kind, hours, threshold, minHours, w);
    RunIsLocated(kind, hours, threshold, minHours, r);
    MomentOnGrid(hours[0].time, now, k, r.first, r.past);
  }

  lemma LongRunCovers(kind: Kind, hours: seq<Hour>, threshold: real, minHours: real, now: int, k: nat, r: Run)
    requires Hourly(hours) && k < |hours| && hours[k].time <= now < hours[k].time + HOUR
    requires LongRun(kind, hours, threshold, minHours, r)
    requires r.first <= k < r.past || (now == hours[k].time && r.first <= k - 1 < r.past)
    ensures Covered(kind, hours, threshold, minHours, now)
  {
    hide Windows, LongRun, WindowOf;
    RunIsLocated(kind, hours, threshold, minHours, r);
    RunWindow(kind, hours, threshold, minHours, r);
    MomentOnGrid(hours[0].time, now, k, r.first, r.past);
    assert Covers(WindowOf(kind, hours, r), now);
  }

  /** A moment inside hour `k` is covered exactly if that hour is in a long run, or it is the
      very start of the hour and the hour before was: the ends of windows count as inside. */
  lemma CoveredByHour(kind: Kind, hours: seq<Hour>, threshold: real, minHours: real, now: int, k: nat)
    requires Hourly(hours) && k < |hours| && hours[k].time <= now < hours[k].time + HOUR
    ensures Covered(kind, hours, threshold, minHours, now) <==>
      || InLongRun(kind, hours, threshold, minHours, k)
      || (now == hours[k].time && InLongRun(kind, hours, threshold, minHours, k - 1))
  {
    hide Covered, LongRun, Hourly;
    if Covered(kind, hours, threshold, minHours, now) {
      CoveredInHour(kind, hours, threshold, minHours, now, k);
    } else if InLongRun(kind, hours, threshold, minHours, k) {
      var r :| LongRun(kind, hours, threshold, minHours, r) && r.first <= k < r.past;
      LongRunCovers(kind, hours, threshold, minHours, now, k, r);
    } else if now == hours[k].time && InLongRun(kind, hours, threshold, minHours, k - 1) {
      var r :| LongRun(kind, hours, threshold, minHours, r) && r.first <= k - 1 < r.past;
      LongRunCovers(kind, hours, threshold, minHours, now, k, r);
    }
  }

  lemma RunIsLocated(kind: Kind, hours: seq<Hour>, threshold: real, minHours: real, r: Run)
    requires LongRun(kind, hours, threshold, minHours, r)
    ensures r.first < r.past <= |hours|
  {}

  /** Outside the forecast nothing is covered. */
  lemma UncoveredOutside(kind: Kind, hours: seq<Hour>, threshold: real, minHours: real, now: int)
    requires Hourly(hours) && (hours == [] || now < hours[0].time || now > hours[|hours| - 1].time + HOUR)
    ensures !Covered(kind, hours, threshold, minHours, now)
  {
    hide Windows, LongRun;
    if Covered(kind, hours, threshold, minHours, now) {
      var w :| w in Windows(kind, hours, threshold, minHours) && Covers(w, now);
      var r := WindowRun(kind, hours, threshold, minHours, w);
      RunIsLocated(kind, hours, threshold, minHours, r);
      assert false;
    }
  }

  /** The schedule says to list exactly in the hours that are in no long cold run and no long
      hot run (the hour start after a run excepted). */
  lemma ListsInModerateHours(hours: seq<Hour>, cold: real, hot: Option<real>, minHours: real, now: int, k: nat)
    requires Hourly(hours) && k < |hours| && hours[k].time <= now < hours[k].time + HOUR
    ensures BuildSchedule(hours, cold, hot, minHours, now).shouldList <==>
      && !InLongRun(Cold, hours, cold, minHours, k)
      && (now == hours[k].time ==> !InLongRun(Cold, hours, cold, minHours, k - 1))
      && (hot.Some? ==> !InLongRun(Hot, hours, hot.value, minHours, k))
      && (hot.Some? && now == hours[k].time ==> !InLongRun(Hot, hours, hot.value, minHours, k - 1))
  {
    CoveredByHour(Cold, hours, cold, minHours, now, k);
    if hot.Some? {
      CoveredByHour(Hot, hours, hot.value, minHours, now, k);
    }
    hide Windows, InLongRun, Covers, Future, Sorted;
  }

  /** Outside the forecast the schedule says to list; after it there is no next window, and
      before it the next window is the first one kept of either kind, if there is one. */
  lemma ListsOutsideForecast(hours: seq<Hour>, cold: real, hot: Option<real>, minHours: real, now: int)
    requires Hourly(hours) && (hours == [] || now < hours[0].time || now > hours[|hours| - 1].time + HOUR)
    ensures var s := BuildSchedule(hours, cold, hot, minHours, now);
      && s.shouldList
      && (s.nextStart.Some? <==>
            hours != [] && now < hours[0].time && AllWindows(hours, cold, hot, minHours) != [])
      && (s.nextStart.Some? ==>
            forall w :: w in AllWindows(hours, cold, hot, minHours) ==> s.nextStart.value <= w.start)
  {
    var all := AllWindows(hours, cold, hot, minHours);
    UncoveredOutside(Cold, hours, cold, minHours, now);
    if hot.Some? {
      UncoveredOutside(Hot, hours, hot.value, minHours, now);
    }
    NextWindowIsEarliest(hours, cold, hot, minHours, now);
    forall w | w in all ensures hours != [] && (w.start > now <==> now < hours[0].time) {
      StartsInForecast(hours, cold, hot, minHours, w);
    }
    assert all != [] ==> all[0] in all;
    hide Windows, Future, Sorted, Hourly;
  }

  lemma StartsInForecast(hours: seq<Hour>, cold: real, hot: Option<real>, minHours: real, w: Window)
    requires Hourly(hours) && w in AllWindows(hours, cold, hot, minHours)
    ensures hours != [] && hours[0].time <= w.start <= hours[|hours| - 1].time
  {
    hide Windows, LongRun;
    var r: Run;
    if w in Windows(Cold, hours, cold, minHours) {
      r := WindowRun(Cold, hours, cold, minHours, w);
      RunIsLocated(Cold, hours, cold, minHours, r);
    } else {
      r := WindowRun(Hot, hours, hot.value, minHours, w);
      RunIsLocated(Hot, hours, hot.value, minHours, r);
    }
  }

  /** With the cold threshold at or below the hot one, no hour is both. */
  lemma NoHourIsBoth(hours: seq<Hour>, cold: real, hot: real, minHours: real, k: nat)
    requires cold <= hot
    ensures !(InLongRun(Cold, hours, cold, minHours, k) && InLongRun(Hot, hours, hot, minHours, k))
  {
    hide LongRun;
    forall c, h | LongRun(Cold, hours, cold, minHours, c) && LongRun(Hot, hours, hot, minHours, h)
      ensures c.past <= h.first || h.past <= c.first
    {
      RunsApart(hours, cold, hot, minHours, c, h);
    }
  }

  // ---- the next window ---------------------------------------------------------------------

  function AllWindows(hours: seq<Hour>, cold: real, hot: Option<real>, minHours: real): seq<Window> {
    Windows(Cold, hours, cold, minHours) + HotWindows(hours, hot, minHours)
  }

  lemma {:induction false} FutureExactly(windows: seq<Window>, now: int, w: Window)
    ensures w in Future(windows, now) <==> w in windows && w.start > now
  {
    if windows != [] {
      FutureExactly(windows[1..], now, w);
      assert windows == [windows[0]] + windows[1..];
    }
  }

  /** The first of the earliest. */
  ghost predicate Earliest(windows: seq<Window>, k: nat) {
    && k < |windows|
    && (forall j :: 0 <= j < |windows| ==> windows[k].start <= windows[j].start)
    && (forall j :: 0 <= j < k ==> windows[k].start < windows[j].start)
  }

  lemma {:induction false} SortedHead(windows: seq<Window>) returns (k: nat)
    requires windows != []
    ensures Sorted(windows) != [] && Earliest(windows, k) && Sorted(windows)[0] == windows[k]
  {
    k := 0;
    if |windows| > 1 {
      var rest := SortedHead(windows[1..]);
      if windows[0].start > windows[1..][rest].start {
        k := rest + 1;
      }
      forall j | 0 <= j < |windows| ensures windows[k].start <= windows[j].start {
        assert j > 0 ==> windows[j] == windows[1..][j - 1];
      }
      forall j | 0 <= j < k ensures windows[k].start < windows[j].start {
        assert j > 0 ==> windows[j] == windows[1..][j - 1];
      }
    }
  }

  /** `w` is the next window of either kind; a cold one wins a tie. */
  ghost predicate Next(colds: seq<Window>, hots: seq<Window>, now: int, w: Window) {
    && w in colds + hots && w.start > now
    && (forall v :: v in colds + hots && v.start > now ==> w.start <= v.start)
    && (w !in colds ==> forall v :: v in colds && v.start > now ==> w.start < v.start)
  }

  lemma NextOfFuture(colds: seq<Window>, hots: seq<Window>, now: int)
    ensures var future := Sorted(Future(colds, now) + Future(hots, now));
      if future == [] then forall w :: w in colds + hots ==> w.start <= now else Next(colds, hots, now, future[0])
  {
    var cold, hot := Future(colds, now), Future(hots, now);
    forall w ensures w in cold <==> w in colds && w.start > now ensures w in hot <==> w in hots && w.start > now {
      FutureExactly(colds, now, w);
      FutureExactly(hots, now, w);
    }
    hide Future;
    var all := cold + hot;
    if all == [] {
      assert forall w :: w in colds ==> w.start > now ==> w in cold;
      assert forall w :: w in hots ==> w.start > now ==> w in hot;
    } else {
      var k := SortedHead(all);
      hide Sorted;
      var w := all[k];
      assert w in all && (k < |cold| ==> w in cold);
      forall v | v in colds + hots && v.start > now ensures w.start <= v.start {
        assert v in all;
      }
      if w !in colds {
        forall v | v in colds && v.start > now ensures w.start < v.start {
          var j :| 0 <= j < |cold| && cold[j] == v;
          assert all[j] == v && j < k;
        }
      }
    }
  }

  /** The schedule's next window is the earliest future one of either kind, and there is none
      exactly if no window starts in the future. */
  lemma NextWindowIsEarliest(hours: seq<Hour>, cold: real, hot: Option<real>, minHours: real, now: int)
    ensures var s := BuildSchedule(hours, cold, hot, minHours, now);
      var colds, hots := Windows(Cold, hours, cold, minHours), HotWindows(hours, hot, minHours);
      && s.nextStart.Some? == s.nextEnd.Some?
      && (s.nextStart.None? <==> forall w :: w in colds + hots ==> w.start <= now)
      && (s.nextStart.Some? ==>
            exists w :: Next(colds, hots, now, w) && w.start == s.nextStart.value && w.end == s.nextEnd.value)
  {
    hide Windows, HotWindows, Future, Sorted, Covers;
    var colds, hots := Windows(Cold, hours, cold, minHours), HotWindows(hours, hot, minHours);
    NextOfFuture(colds, hots, now);
    var future := Sorted(Future(colds, now) + Future(hots, now));
    if future != [] {
      assert Next(colds, hots, now, future[0]);
    }
  }

  // ---- the listing state machine on this schedule --------------------------------------------

  lemma Aligned(hours: seq<Hour>, cold: real, hot: Option<real>, minHours: real, w: Window) returns (a: int, b: int)
    requires Hourly(hours) && w in AllWindows(hours, cold, hot, minHours)
    ensures a < b && w.start == hours[0].time + HOUR * a && w.end == hours[0].time + HOUR * b
  {
    hide Windows, LongRun;
    if w in Windows(Cold, hours, cold, minHours) {
      var r := WindowRun(Cold, hours, cold, minHours, w);
      RunIsLocated(Cold, hours, cold, minHours, r);
      a, b := r.first, r.past;
    } else {
      var r := WindowRun(Hot, hours, hot.value, minHours, w);
      RunIsLocated(Hot, hours, hot.value, minHours, r);
      a, b := r.first, r.past;
    }
  }

  lemma SameKindApart(kind: Kind, hours: seq<Hour>, threshold: real, minHours: real, w: Window, v: Window)
    requires Hourly(hours)
    requires w in Windows(kind, hours, threshold, minHours) && v in Windows(kind, hours, threshold, minHours)
    ensures w == v || w.end <= v.start || v.end <= w.start
  {
    hide Windows;
    var windows := Windows(kind, hours, threshold, minHours);
    var i :| 0 <= i < |windows| && windows[i] == w;
    var j :| 0 <= j < |windows| && windows[j] == v;
    if i < j {
      WindowsApart(kind, hours, threshold, minHours, i, j);
    } else if j < i {
      WindowsApart(kind, hours, threshold, minHours, j, i);
    }
  }

  /** Two kept windows of either kind are the same or share at most an end point. */
  lemma AnyTwoApart(hours: seq<Hour>, cold: real, hot: Option<real>, minHours: real, w: Window, v: Window)
    requires Hourly(hours) && (hot.Some? ==> cold <= hot.value)
    requires w in AllWindows(hours, cold, hot, minHours) && v in AllWindows(hours, cold, hot, minHours)
    ensures w == v || w.end <= v.start || v.end <= w.start
  {
    hide Windows;
    var colds := Windows(Cold, hours, cold, minHours);
    if w in colds && v in colds {
      SameKindApart(Cold, hours, cold, minHours, w, v);
    } else if w in colds {
      ColdAndHotApart(hours, cold, hot.value, minHours, w, v);
    } else if v in colds {
      ColdAndHotApart(hours, cold, hot.value, minHours, v, w);
    } else {
      SameKindApart(Hot, hours, hot.value, minHours, w, v);
    }
  }

  /** The next no-list window starts between `earliest` and `latest` seconds from now. */
  ghost predicate NextWithin(colds: seq<Window>, hots: seq<Window>, now: int, earliest: int, latest: int) {
    exists w :: Next(colds, hots, now, w) && earliest <= w.start - now <= latest
  }

  /** The tick that uses, `age` seconds later, the schedule built from this forecast. */
  predicate UsedLater(hours: seq<Hour>, cold: real, hot: Option<real>, minHours: real, now: int, age: int, ahead: int,
                      t: Vast.Tick)
  {
    var built := BuildSchedule(hours, cold, hot, minHours, now);
    t.checked == now + age - ahead && t.shouldList == built.shouldList && t.nextStart == built.nextStart
  }

  /** The provider reads the schedule's next no-list window as a reason to list early. The
      schedule's times are local and the provider takes them for UTC, and the agent uses one
      schedule for many ticks. On a schedule built at `now` and used `age` seconds later, with
      local time `ahead` of UTC by so many seconds, it wants the machine listed exactly if the
      schedule says so or the next no-list window starts in a time shifted by both. */
  lemma PreListing(hours: seq<Hour>, cold: real, hot: Option<real>, minHours: real, now: int, age: int, ahead: int,
                   s: Vast.Machine, t: Vast.Tick)
    requires s.wish == Vast.FollowSchedule && UsedLater(hours, cold, hot, minHours, now, age, ahead, t)
    ensures var colds, hots := Windows(Cold, hours, cold, minHours), HotWindows(hours, hot, minHours);
      Vast.Wanted(s, t) <==> t.shouldList || NextWithin(colds, hots, now, age - ahead, s.preList + age - ahead)
  {
    var colds, hots := Windows(Cold, hours, cold, minHours), HotWindows(hours, hot, minHours);
    NextWindowIsEarliest(hours, cold, hot, minHours, now);
    hide Windows, HotWindows, BuildSchedule;
    if t.nextStart.Some? {
      var v :| Next(colds, hots, now, v) && v.start == t.nextStart.value;
      assert forall w :: Next(colds, hots, now, w) ==> w.start == v.start;
    }
  }

  // ---- east of UTC ---------------------------------------------------------------------------

  /** Whatever the forecast, at this age the provider follows the schedule and nothing else. */
  ghost predicate ScheduleDecides(now: int, age: int, ahead: int, s: Vast.Machine) {
    forall hours, cold, hot, minHours, t :: UsedLater(hours, cold, hot, minHours, now, age, ahead, t) ==>
      (Vast.Wanted(s, t) <==> t.shouldList)
  }

  /** Two hours of frost or more that end at `turn`, straight into two hot ones. */
  function Turning(turn: int, colds: nat): (hours: seq<Hour>)
    ensures |hours| == colds + 2 && Hourly(hours)
    ensures forall k :: 0 <= k < colds + 2 ==>
      hours[k] == Hour(turn - HOUR * colds + HOUR * k, if k < colds then 0.0 else 30.0)
  {
    seq(colds + 2, k => Hour(turn - HOUR * colds + HOUR * k, if k < colds then 0.0 else 30.0))
  }

  function Threshold(kind: Kind): real {
    if kind == Cold then 10.0 else 16.0
  }

  function TurningRun(kind: Kind, colds: nat): Run {
    if kind == Cold then Run(0, colds) else Run(colds, colds + 2)
  }

  lemma TurningRuns(turn: int, colds: nat, kind: Kind, r: Run)
    requires colds >= 2
    ensures LongRun(kind, Turning(turn, colds), Threshold(kind), 2.0, r) <==> r == TurningRun(kind, colds)
  {
    var hours := Turning(turn, colds);
    hide Turning;
    assert MaximalRun(kind, hours, Threshold(kind), TurningRun(kind, colds));
    if MaximalRun(kind, hours, Threshold(kind), r) {
      assert Beyond(kind, Threshold(kind), hours[r.first].temp);
      assert Beyond(kind, Threshold(kind), hours[r.past - 1].temp);
    }
  }

  lemma TurningWindows(turn: int, colds: nat, kind: Kind, w: Window)
    requires colds >= 2 && w in Windows(kind, Turning(turn, colds), Threshold(kind), 2.0)
    ensures w.start == if kind == Cold then turn - HOUR * colds else turn
  {
    var r := WindowRun(kind, Turning(turn, colds), Threshold(kind), 2.0, w);
    TurningRuns(turn, colds, kind, r);
    hide LongRun, Windows, Turning;
  }

  lemma TurningWindow(turn: int, colds: nat, kind: Kind) returns (w: Window)
    requires colds >= 2
    ensures w in Windows(kind, Turning(turn, colds), Threshold(kind), 2.0)
    ensures w.start == (if kind == Cold then turn - HOUR * colds else turn) && (kind == Cold ==> w.end == turn)
  {
    var hours := Turning(turn, colds);
    TurningRuns(turn, colds, kind, TurningRun(kind, colds));
    RunWindow(kind, hours, Threshold(kind), 2.0, TurningRun(kind, colds));
    w := WindowOf(kind, hours, TurningRun(kind, colds));
    hide LongRun, Windows, WindowOf, Turning;
  }

  /** The frost covers any moment in it, and the heat is next. */
  lemma TurningSchedule(turn: int, colds: nat, now: int)
    requires colds >= 2 && turn - HOUR * colds <= now < turn
    ensures var s := BuildSchedule(Turning(turn, colds), 10.0, Some(16.0), 2.0, now);
      !s.shouldList && s.nextStart == Some(turn)
  {
    var hours := Turning(turn, colds);
    var cold := TurningWindow(turn, colds, Cold);
    var hot := TurningWindow(turn, colds, Hot);
    NextWindowIsEarliest(hours, 10.0, Some(16.0), 2.0, now);
    hide Windows, Turning, Future, Sorted;
    assert Covers(cold, now);
    forall w | w in Windows(Cold, hours, 10.0, 2.0) ensures w.start <= now {
      TurningWindows(turn, colds, Cold, w);
    }
    forall w | w in Windows(Hot, hours, 16.0, 2.0) ensures w.start == turn {
      TurningWindows(turn, colds, Hot, w);
    }
  }

  /** Less far east than the lead time and the schedule's age together, some forecast has the
      provider list the machine against the schedule, its next no-list window just begun or
      about to. (At the default settings an hour ahead of UTC does not do.) */
  lemma LessEastPreLists(now: int, age: int, ahead: int, s: Vast.Machine) returns (hours: seq<Hour>, t: Vast.Tick)
    requires s.wish == Vast.FollowSchedule && 0 <= s.preList && ahead < s.preList + age
    ensures Hourly(hours) && UsedLater(hours, 10.0, Some(16.0), 2.0, now, age, ahead, t)
    ensures !t.shouldList && Vast.Wanted(s, t)
  {
    hide BuildSchedule, Turning, Hourly;
    var turn := now + s.preList + age - ahead;
    var colds: nat := turn - now + 2;
    hours := Turning(turn, colds);
    TurningSchedule(turn, colds, now);
    var at := now + age - ahead;
    t := Vast.Tick(false, Some(turn), at, at, Vast.Failed, Vast.QueryFailed, Vast.NoPrice);
  }

  /** The schedule alone decides, whatever the forecast, exactly if local time is ahead of UTC
      by at least the lead time and the schedule's age together (or the lead is negative). */
  lemma EastNeverPreLists(now: int, age: int, ahead: int, s: Vast.Machine)
    requires s.wish == Vast.FollowSchedule
    ensures ScheduleDecides(now, age, ahead, s) <==> ahead >= s.preList + age || s.preList < 0
  {
    if ahead >= s.preList + age || s.preList < 0 {
      forall hours, cold, hot, minHours, t | UsedLater(hours, cold, hot, minHours, now, age, ahead, t)
        ensures Vast.Wanted(s, t) <==> t.shouldList
      {
        PreListing(hours, cold, hot, minHours, now, age, ahead, s, t);
        hide BuildSchedule, Windows, HotWindows;
      }
    } else {
      var hours, t := LessEastPreLists(now, age, ahead, s);
      hide UsedLater;
      assert UsedLater(hours, 10.0, Some(16.0), 2.0, now, age, ahead, t);
    }
  }

  // ---- local time equal to UTC -----------------------------------------------------------------

  /** `w` covers `now`, and of the windows still to start `v` is the first. */
  ghost predicate Following(windows: seq<Window>, now: int, w: Window, v: Window) {
    && w in windows && v in windows && Covers(w, now) && now < v.start
    && forall u :: u in windows && now < u.start ==> v.start <= u.start
  }

  /** A no-list window at `now`, and the one after it starting within the lead time of a moment
      `age` seconds later. */
  ghost predicate AnotherSoon(windows: seq<Window>, now: int, age: int, lead: int) {
    exists w, v :: Following(windows, now, w, v) && now + age <= v.start <= now + age + lead
  }

  /** Where local time is UTC, the machine is listed against the schedule exactly while the
      window after the one that the schedule found itself in starts within the lead time. */
  lemma PreListingInUtc(hours: seq<Hour>, cold: real, hot: Option<real>, minHours: real, now: int, age: int,
                        s: Vast.Machine, t: Vast.Tick)
    requires s.wish == Vast.FollowSchedule && UsedLater(hours, cold, hot, minHours, now, age, 0, t)
    ensures Vast.Wanted(s, t) <==>
      t.shouldList || AnotherSoon(AllWindows(hours, cold, hot, minHours), now, age, s.preList)
  {
    var all := AllWindows(hours, cold, hot, minHours);
    var colds, hots := Windows(Cold, hours, cold, minHours), HotWindows(hours, hot, minHours);
    NextWindowIsEarliest(hours, cold, hot, minHours, now);
    assert !t.shouldList <==> exists w :: w in all && Covers(w, now);
    hide Windows, HotWindows, Future, Sorted, BuildSchedule;
    if t.nextStart.Some? {
      var v :| Next(colds, hots, now, v) && v.start == t.nextStart.value;
      if !t.shouldList {
        var w :| w in all && Covers(w, now);
        assert Following(all, now, w, v);
      }
    }
  }

  /** A no-list window at `now` that ends just as one of the other kind starts, which is within
      the lead time of a moment `age` seconds later. */
  ghost predicate Handover(windows: seq<Window>, now: int, age: int, lead: int) {
    exists w, v :: w in windows && v in windows && w.start <= now < w.end == v.start
                   && now + age <= v.start <= now + age + lead
  }

  /** Every window that covers the moment starts in it. */
  ghost predicate Clear(windows: seq<Window>, now: int) {
    forall u :: u in windows && Covers(u, now) ==> u.start == now
  }

  /** On the hourly grid, with ordered thresholds and a lead time under an hour, the provider
      lists against a young schedule only where a cold spell turns straight into a hot one or
      the other way round; against an old one else only when no window covers the moment any
      more, so that a new schedule would list as well. */
  lemma OnlyHandoversList(hours: seq<Hour>, cold: real, hot: Option<real>, minHours: real, now: int, age: nat,
                          lead: int)
    requires Hourly(hours) && (hot.Some? ==> cold <= hot.value) && lead < HOUR
    ensures var all := AllWindows(hours, cold, hot, minHours);
      && (Handover(all, now, age, lead) ==> AnotherSoon(all, now, age, lead))
      && (AnotherSoon(all, now, age, lead) ==> Handover(all, now, age, lead) || Clear(all, now + age))
      && (AnotherSoon(all, now, age, lead) && age + lead < HOUR ==> Handover(all, now, age, lead))
  {
    var all := AllWindows(hours, cold, hot, minHours);
    hide AllWindows;
    if Handover(all, now, age, lead) {
      var w, v :| w in all && v in all && w.start <= now < w.end == v.start
                  && now + age <= v.start <= now + age + lead;
      NoneBetween(hours, cold, hot, minHours, now, w, v);
      assert Following(all, now, w, v);
    }
    if AnotherSoon(all, now, age, lead) {
      var w, v :| Following(all, now, w, v) && now + age <= v.start <= now + age + lead;
      if age + lead < HOUR {
        HandsOver(hours, cold, hot, minHours, now, age + lead, w, v);
        assert Handover(all, now, age, lead);
      } else if !Clear(all, now + age) {
        var u :| u in all && Covers(u, now + age) && u.start != now + age;
        StillInside(hours, cold, hot, minHours, now, age, lead, w, v, u);
        assert Handover(all, now, age, lead);
      }
    }
  }

  lemma NoneBetween(hours: seq<Hour>, cold: real, hot: Option<real>, minHours: real, now: int, w: Window, v: Window)
    requires Hourly(hours) && (hot.Some? ==> cold <= hot.value)
    requires w in AllWindows(hours, cold, hot, minHours) && w.start <= now < w.end == v.start
    ensures forall u :: u in AllWindows(hours, cold, hot, minHours) && now < u.start ==> v.start <= u.start
  {
    hide AllWindows;
    forall u | u in AllWindows(hours, cold, hot, minHours) && now < u.start ensures v.start <= u.start {
      AnyTwoApart(hours, cold, hot, minHours, w, u);
      var a, b := Aligned(hours, cold, hot, minHours, u);
    }
  }

  /** A window that covers both moments ends where the next one starts. */
  lemma StillInside(hours: seq<Hour>, cold: real, hot: Option<real>, minHours: real, now: int, age: nat, lead: int,
                    w: Window, v: Window, u: Window)
    requires Hourly(hours) && (hot.Some? ==> cold <= hot.value) && lead < HOUR
    requires Following(AllWindows(hours, cold, hot, minHours), now, w, v)
    requires now + age <= v.start <= now + age + lead
    requires u in AllWindows(hours, cold, hot, minHours) && Covers(u, now + age) && u.start != now + age
    ensures u.start <= now < u.end == v.start
  {
    hide AllWindows;
    assert u.start <= now;
    AnyTwoApart(hours, cold, hot, minHours, u, v);
    var a, b := Aligned(hours, cold, hot, minHours, u);
    var c, d := Aligned(hours, cold, hot, minHours, v);
    assert v.start - u.end == HOUR * (c - b);
  }

  lemma HandsOver(hours: seq<Hour>, cold: real, hot: Option<real>, minHours: real, now: int, lead: int,
                  w: Window, v: Window)
    requires Hourly(hours) && (hot.Some? ==> cold <= hot.value) && lead < HOUR
    requires w in AllWindows(hours, cold, hot, minHours) && v in AllWindows(hours, cold, hot, minHours)
    requires Covers(w, now) && now < v.start <= now + lead
    ensures now < w.end == v.start
  {
    AnyTwoApart(hours, cold, hot, minHours, w, v);
    var a, b := Aligned(hours, cold, hot, minHours, w);
    var c, d := Aligned(hours, cold, hot, minHours, v);
    TakesOver(hours[0].time, now, lead, a, b, c, d);
  }

  lemma TakesOver(origin: int, now: int, lead: int, a: int, b: int, c: int, d: int)
    requires lead < HOUR && c < d && (b <= c || d <= a || a == c)
    requires origin + HOUR * a <= now <= origin + HOUR * b
    requires now < origin + HOUR * c <= now + lead
    ensures now < origin + HOUR * b == origin + HOUR * c
  {}

  /** Two hours of frost that end at `turn`, a mild one, and two more of frost. */
  function Interrupted(turn: int): (hours: seq<Hour>)
    ensures |hours| == 5 && Hourly(hours)
    ensures forall k :: 0 <= k < 5 ==> hours[k] == Hour(turn + HOUR * (k - 2), if k == 2 then 12.0 else 0.0)
  {
    seq(5, k => Hour(turn + HOUR * (k - 2), if k == 2 then 12.0 else 0.0))
  }

  lemma InterruptedRuns(turn: int, kind: Kind, r: Run)
    ensures LongRun(kind, Interrupted(turn), Threshold(kind), 2.0, r)
      <==> kind == Cold && (r == Run(0, 2) || r == Run(3, 5))
  {
    var hours := Interrupted(turn);
    hide Interrupted;
    if MaximalRun(kind, hours, Threshold(kind), r) {
      assert r.first <= 2 < r.past ==> Beyond(kind, Threshold(kind), hours[2].temp);
      assert Beyond(kind, Threshold(kind), hours[r.first].temp);
      assert Beyond(kind, Threshold(kind), hours[r.past - 1].temp);
    }
  }

  lemma InterruptedWindows(turn: int, w: Window)
    requires w in AllWindows(Interrupted(turn), 10.0, Some(16.0), 2.0)
    ensures (w.start == turn - 2 * HOUR && w.end == turn) || (w.start == turn + HOUR && w.end == turn + 3 * HOUR)
  {
    var kind := if w in Windows(Cold, Interrupted(turn), 10.0, 2.0) then Cold else Hot;
    var r := WindowRun(kind, Interrupted(turn), Threshold(kind), 2.0, w);
    InterruptedRuns(turn, kind, r);
    hide LongRun, Windows, Interrupted;
  }

  lemma InterruptedWindow(turn: int, r: Run)
    requires r == Run(0, 2) || r == Run(3, 5)
    ensures exists w :: w in AllWindows(Interrupted(turn), 10.0, Some(16.0), 2.0)
                        && w.start == turn + HOUR * (r.first - 2) && w.end == turn + HOUR * (r.past - 2)
  {
    InterruptedRuns(turn, Cold, r);
    RunWindow(Cold, Interrupted(turn), Threshold(Cold), 2.0, r);
    hide LongRun, Windows, WindowOf, Interrupted;
    assert WindowOf(Cold, Interrupted(turn), r) in AllWindows(Interrupted(turn), 10.0, Some(16.0), 2.0);
  }

  /** A schedule built two minutes before the end of a cold window and used 54 minutes later,
      eight minutes before the next one: the provider lists against it with ten minutes' lead,
      and nothing hands over. */
  lemma StaleSchedulePreLists(turn: int, s: Vast.Machine) returns (hours: seq<Hour>, t: Vast.Tick)
    requires s.wish == Vast.FollowSchedule && s.preList == 600
    ensures Hourly(hours) && UsedLater(hours, 10.0, Some(16.0), 2.0, turn - 120, 3240, 0, t)
    ensures !t.shouldList && Vast.Wanted(s, t)
    ensures !Handover(AllWindows(hours, 10.0, Some(16.0), 2.0), turn - 120, 3240, 600)
  {
    var now := turn - 120;
    hours := Interrupted(turn);
    var all := AllWindows(hours, 10.0, Some(16.0), 2.0);
    forall w | w in all
      ensures (w.start == turn - 2 * HOUR && w.end == turn) || (w.start == turn + HOUR && w.end == turn + 3 * HOUR)
    {
      InterruptedWindows(turn, w);
    }
    InterruptedWindow(turn, Run(0, 2));
    InterruptedWindow(turn, Run(3, 5));
    var built := BuildSchedule(hours, 10.0, Some(16.0), 2.0, now);
    NextWindowIsEarliest(hours, 10.0, Some(16.0), 2.0, now);
    var at := now + 3240;
    t := Vast.Tick(built.shouldList, built.nextStart, at, at, Vast.Failed, Vast.QueryFailed, Vast.NoPrice);
    PreListingInUtc(hours, 10.0, Some(16.0), 2.0, now, 3240, s, t);
    hide Interrupted, Windows, Future, Sorted, Hourly;
    var w :| w in all && w.start == turn - 2 * HOUR && w.end == turn;
    var v :| v in all && v.start == turn + HOUR && v.end == turn + 3 * HOUR;
    assert Covers(w, now) && Following(all, now, w, v);
  }
}
