/** The agent's Vast.AI poller: which schedule drives which tick. While the backend does not
    answer, a schedule built from the local forecast is used, and kept for a while. */
module VastLoop {
  import opened Text
  import opened WeatherSchedule
  import Vast
  import VastLaws
  import Weather

  /** One poll: the override by then in force, the backend's answer (none if it does not
      answer, answers with an error, or with nothing), what building from the forecast would
      give (none without coordinates or a forecast), the clock, and the CLI. */
  datatype Poll = Poll(
    wish: Vast.Override, backend: Option<Weather.Schedule>, local: Option<Weather.Schedule>,
    checked: int, stamped: int, reply: Vast.Reply, rentals: Vast.RentalReply, price: Vast.PriceReply)

  datatype Settings = Settings(interval: real, refresh: real)

  /** The local schedule kept, and its age as the loop counts it. (The source starts with an
      infinite age, which says no more than the missing schedule.) */
  datatype Cache = Cache(schedule: Option<Weather.Schedule>, age: real)

  const EMPTY := Cache(None, 0.0)

  predicate Rebuilds(c: Cache, p: Poll, cfg: Settings) {
    p.backend == None && (c.schedule == None || c.age + cfg.interval >= cfg.refresh)
  }

  function CacheStep(c: Cache, p: Poll, cfg: Settings): Cache {
    if p.backend.Some? then c
    else if Rebuilds(c, p, cfg) then Cache(p.local, 0.0)
    else c.(age := c.age + cfg.interval)
  }

  function CacheAfter(polls: seq<Poll>, cfg: Settings): Cache {
    if polls == [] then EMPTY else CacheStep(CacheAfter(polls[..|polls| - 1], cfg), polls[|polls| - 1], cfg)
  }

  /** The schedule that drives the last poll's tick. */
  function Used(polls: seq<Poll>, cfg: Settings): Option<Weather.Schedule>
    requires polls != []
  {
    var p := polls[|polls| - 1];
    if p.backend.Some? then p.backend else CacheAfter(polls, cfg).schedule
  }

  function TickOf(p: Poll, schedule: Weather.Schedule): Vast.Tick {
    Vast.Tick(schedule.shouldList, schedule.nextStart, p.checked, p.stamped, p.reply, p.rentals, p.price)
  }

  /** What the last poll does to the provider. */
  function PollEvents(polls: seq<Poll>, cfg: Settings): seq<Vast.Event>
    requires polls != []
  {
    var p := polls[|polls| - 1];
    [Vast.SetOverride(p.wish)] + match Used(polls, cfg)
                                 case Some(schedule) => [Vast.Update(TickOf(p, schedule))]
                                 case None => []
  }

  function Events(polls: seq<Poll>, cfg: Settings): seq<Vast.Event> {
    if polls == [] then [] else Events(polls[..|polls| - 1], cfg) + PollEvents(polls, cfg)
  }

  /** The machine as poll `j` finds it. */
  function MachineAt(s: Vast.Machine, polls: seq<Poll>, cfg: Settings, j: nat): Vast.Machine
    requires j < |polls|
  {
    Vast.Step(Vast.Run(s, Events(polls[..j], cfg)), Vast.SetOverride(polls[j].wish))
  }

  predicate RaisesAt(s: Vast.Machine, polls: seq<Poll>, cfg: Settings, j: int) {
    && 0 <= j < |polls| && Used(polls[..j + 1], cfg).Some?
    && Vast.Raises(MachineAt(s, polls, cfg, j), Vast.Update(TickOf(polls[j], Used(polls[..j + 1], cfg).value)))
  }

  lemma RunTwo(s: Vast.Machine, es: seq<Vast.Event>, a: Vast.Event, b: Vast.Event)
    ensures Vast.Run(s, es + [a]) == Vast.Step(Vast.Run(s, es), a)
    ensures Vast.Run(s, es + [a, b]) == Vast.Step(Vast.Step(Vast.Run(s, es), a), b)
  {
    hide Vast.Step;
    assert (es + [a])[..|es|] == es;
    assert (es + [a, b])[..|es| + 1] == es + [a];
  }

  /** What one poll makes of the machine. */
  lemma PollRuns(s: Vast.Machine, polls: seq<Poll>, cfg: Settings)
    requires polls != []
    ensures var n := |polls| - 1;
      var used, found := Used(polls, cfg), MachineAt(s, polls, cfg, n);
      Vast.Run(s, Events(polls, cfg))
      == if used.Some? then Vast.Step(found, Vast.Update(TickOf(polls[n], used.value))) else found
  {
    var n := |polls| - 1;
    var used := Used(polls, cfg);
    var es := Events(polls[..n], cfg);
    var wish := Vast.SetOverride(polls[n].wish);
    RunTwo(s, es, wish, if used.Some? then Vast.Update(TickOf(polls[n], used.value)) else wish);
    assert PollEvents(polls, cfg)
        == if used.Some? then [wish, Vast.Update(TickOf(polls[n], used.value))] else [wish];
    hide Vast.Run, Vast.Step, Used, TickOf, PollEvents;
  }

  /** Of the first `made` ticks none raised but, if `raised` says so, the last. */
  predicate RaisedOnlyLast(s: Vast.Machine, polls: seq<Poll>, cfg: Settings, made: nat, raised: bool) {
    forall j :: 0 <= j < made ==> (RaisesAt(s, polls, cfg, j) <==> raised && j == made - 1)
  }

  /** Where the loop stands after `made` polls. */
  predicate Stands(s: Vast.Machine, polls: seq<Poll>, cfg: Settings, made: nat, c: Cache, m: Vast.Machine,
                   raised: bool)
  {
    && made <= |polls| && (raised ==> made > 0)
    && c == CacheAfter(polls[..made], cfg)
    && m == Vast.Run(s, Events(polls[..made], cfg))
    && RaisedOnlyLast(s, polls, cfg, made, raised)
  }

  /** One poll in the loop's own terms. */
  predicate OnePoll(c: Cache, m: Vast.Machine, p: Poll, cfg: Settings,
                    after: Cache, used: Option<Weather.Schedule>, n: Vast.Machine, raised: bool)
  {
    var found := Vast.Step(m, Vast.SetOverride(p.wish));
    && after == CacheStep(c, p, cfg)
    && used == (if p.backend.Some? then p.backend else after.schedule)
    && if used == None then n == found && !raised
       else n == Vast.Step(found, Vast.Update(TickOf(p, used.value)))
            && raised == Vast.Raises(found, Vast.Update(TickOf(p, used.value)))
  }

  lemma NothingPolled(s: Vast.Machine, polls: seq<Poll>, cfg: Settings)
    ensures Stands(s, polls, cfg, 0, EMPTY, s, false)
  {}

  lemma PollMade(s: Vast.Machine, polls: seq<Poll>, cfg: Settings, made: nat, c: Cache, m: Vast.Machine,
                 after: Cache, used: Option<Weather.Schedule>, n: Vast.Machine, raised: bool)
    requires made < |polls| && Stands(s, polls, cfg, made, c, m, false)
    requires OnePoll(c, m, polls[made], cfg, after, used, n, raised)
    ensures Stands(s, polls, cfg, made + 1, after, n, raised)
  {
    hide Vast.Step, Vast.Run, Vast.Raises, Events, TickOf, CacheStep;
    var soFar := polls[..made + 1];
    assert soFar[..made] == polls[..made];
    PollRuns(s, soFar, cfg);
    assert after == CacheAfter(soFar, cfg) && used == Used(soFar, cfg);
    assert RaisesAt(s, polls, cfg, made) <==> raised;
    hide RaisesAt, CacheAfter, Used, OnePoll, MachineAt;
  }

  /** `_vast_loop`: polls until the agent stops or a tick raises. */
  method Loop(provider: Vast.VastProvider, polls: seq<Poll>, cfg: Settings) returns (made: nat, raised: bool)
    modifies provider
    ensures made <= |polls|
    ensures provider.Contents() == Vast.Run(old(provider.Contents()), Events(polls[..made], cfg))
    ensures !provider.enabled ==> made == 0 && !raised
    ensures provider.enabled && !raised ==> made == |polls|
    ensures raised ==> made > 0
    ensures RaisedOnlyLast(old(provider.Contents()), polls, cfg, made, raised)
  {
    made, raised := 0, false;
    ghost var s := provider.Contents();
    NothingPolled(s, polls, cfg);
    if !provider.enabled {
      return;
    }
    var cached: Option<Weather.Schedule> := None;
    var age := 0.0;
    while made < |polls| && !raised
      invariant Stands(s, polls, cfg, made, Cache(cached, age), provider.Contents(), raised)
      decreases |polls| - made, !raised
    {
      hide Stands, Vast.Step, Vast.Raises, TickOf, Vast.VastProvider.Contents;
      var p := polls[made];
      ghost var before, found := Cache(cached, age), provider.Contents();
      var schedule := p.backend;
      if schedule == None {
        age := age + cfg.interval;
        if cached == None || age >= cfg.refresh {
          cached := p.local;
          age := 0.0;
        }
        schedule := cached;
      }
      provider.SetOverride(p.wish);
      if schedule.Some? {
        raised := provider.Update(TickOf(p, schedule.value));
      }
      PollMade(s, polls, cfg, made, before, found, Cache(cached, age), schedule, provider.Contents(), raised);
      made := made + 1;
    }
  }

  // ---- the schedule in the cache -------------------------------------------------------------

  predicate RebuildsAt(polls: seq<Poll>, cfg: Settings, k: int) {
    0 <= k < |polls| && Rebuilds(CacheAfter(polls[..k], cfg), polls[k], cfg)
  }

  ghost predicate NoRebuild(polls: seq<Poll>, cfg: Settings, from: int) {
    forall i :: from <= i < |polls| ==> !RebuildsAt(polls, cfg, i)
  }

  ghost predicate LastBuild(polls: seq<Poll>, cfg: Settings, k: int) {
    RebuildsAt(polls, cfg, k) && NoRebuild(polls, cfg, k + 1)
  }

  /** How many polls the backend did not answer. */
  function Fallbacks(polls: seq<Poll>): nat {
    if polls == [] then 0
    else Fallbacks(polls[..|polls| - 1]) + if polls[|polls| - 1].backend == None then 1 else 0
  }

  /** The time the loop counts after poll `k`: an interval for each poll not answered. */
  function Counted(polls: seq<Poll>, cfg: Settings, k: nat): real
    requires k < |polls|
  {
    cfg.interval * Fallbacks(polls[k + 1..]) as real
  }

  /** The cache as the polls themselves tell it. */
  ghost predicate CacheTold(polls: seq<Poll>, cfg: Settings, k: nat) {
    LastBuild(polls, cfg, k) && CacheAfter(polls, cfg) == Cache(polls[k].local, Counted(polls, cfg, k))
  }

  lemma RebuildsEarlier(polls: seq<Poll>, cfg: Settings, j: int)
    requires polls != [] && j < |polls| - 1
    ensures RebuildsAt(polls[..|polls| - 1], cfg, j) == RebuildsAt(polls, cfg, j)
  {
    if 0 <= j {
      assert polls[..|polls| - 1][..j] == polls[..j];
    }
  }

  lemma CountedMore(polls: seq<Poll>, cfg: Settings, k: nat)
    requires k < |polls| - 1
    ensures var n := |polls| - 1;
      Counted(polls, cfg, k)
      == Counted(polls[..n], cfg, k) + if polls[n].backend == None then cfg.interval else 0.0
  {
    var n := |polls| - 1;
    var f := Fallbacks(polls[..n][k + 1..]);
    assert polls[k + 1..][..n - k - 1] == polls[..n][k + 1..];
    assert cfg.interval * (f + 1) as real == cfg.interval * f as real + cfg.interval;
  }

  lemma BuildStays(polls: seq<Poll>, cfg: Settings, k: nat)
    requires polls != [] && CacheTold(polls[..|polls| - 1], cfg, k) && !RebuildsAt(polls, cfg, |polls| - 1)
    ensures CacheTold(polls, cfg, k)
  {
    var n := |polls| - 1;
    forall j | j < n ensures RebuildsAt(polls[..n], cfg, j) == RebuildsAt(polls, cfg, j) {
      RebuildsEarlier(polls, cfg, j);
    }
    CountedMore(polls, cfg, k);
    hide RebuildsAt, Counted;
    assert NoRebuild(polls, cfg, k + 1);
  }

  /** After any polls the cache holds what the last rebuild gave, and its age counts the polls
      since that the backend did not answer; until one goes unanswered nothing is cached. */
  lemma {:induction false} CacheAccount(polls: seq<Poll>, cfg: Settings) returns (k: nat)
    ensures if Fallbacks(polls) == 0 then CacheAfter(polls, cfg) == EMPTY && NoRebuild(polls, cfg, 0)
            else CacheTold(polls, cfg, k)
  {
    k := 0;
    if polls != [] {
      var n := |polls| - 1;
      k := CacheAccount(polls[..n], cfg);
      if RebuildsAt(polls, cfg, n) {
        k := n;
        assert polls[n + 1..] == [];
      } else if Fallbacks(polls[..n]) == 0 {
        forall j | 0 <= j < n ensures !RebuildsAt(polls, cfg, j) {
          RebuildsEarlier(polls, cfg, j);
          assert !RebuildsAt(polls[..n], cfg, j);
        }
      } else {
        hide CacheTold;
        BuildStays(polls, cfg, k);
      }
    }
  }

  /** The last poll the backend did not answer. */
  predicate FallsBack(polls: seq<Poll>) {
    polls != [] && polls[|polls| - 1].backend == None
  }

  /** An unanswered poll rebuilds the schedule if and only if there was no rebuild before, or
      the last one gave nothing, or with this poll as many have gone unanswered since as make
      up the refresh interval. Answered polls do not count, however long they take. */
  lemma RebuildsExactly(polls: seq<Poll>, cfg: Settings)
    requires FallsBack(polls)
    ensures RebuildsAt(polls, cfg, |polls| - 1) <==>
      forall k: nat :: LastBuild(polls[..|polls| - 1], cfg, k) ==>
        polls[k].local == None || Counted(polls, cfg, k) >= cfg.refresh
  {
    var n := |polls| - 1;
    var k := CacheAccount(polls[..n], cfg);
    hide CacheAfter, Fallbacks, Counted;
    if Fallbacks(polls[..n]) == 0 {
      assert forall k: nat :: LastBuild(polls[..n], cfg, k) ==> RebuildsAt(polls[..n], cfg, k) && 0 <= k;
    } else {
      CountedMore(polls, cfg, k);
      OneLastBuild(polls[..n], cfg, k);
      hide LastBuild;
    }
  }

  lemma OneLastBuild(polls: seq<Poll>, cfg: Settings, k: nat)
    requires LastBuild(polls, cfg, k)
    ensures forall j: nat :: LastBuild(polls, cfg, j) <==> j == k
  {
    hide CacheAfter, Rebuilds;
    forall j: nat | j != k ensures !LastBuild(polls, cfg, j) {
      if j < k {
        assert RebuildsAt(polls, cfg, k);
      } else {
        assert !RebuildsAt(polls, cfg, j);
      }
    }
  }

  /** An unanswered poll's tick is driven by what the last rebuild gave: its own, or one since
      which fewer polls went unanswered than make up the refresh interval. */
  lemma FallbackUses(polls: seq<Poll>, cfg: Settings) returns (k: nat)
    requires FallsBack(polls)
    ensures LastBuild(polls, cfg, k) && Used(polls, cfg) == polls[k].local
    ensures k < |polls| - 1 ==> polls[k].local.Some? && Counted(polls, cfg, k) < cfg.refresh
  {
    hide Counted;
    k := CacheAccount(polls, cfg);
    var n := |polls| - 1;
    if k < n {
      assert !RebuildsAt(polls, cfg, n);
    }
  }

  /** A poll the backend answers is driven by that answer: its tick carries the answer's word
      and next window, and the cache stays as it was. */
  lemma AnsweredDrives(s: Vast.Machine, polls: seq<Poll>, cfg: Settings) returns (t: Vast.Tick)
    requires polls != [] && polls[|polls| - 1].backend.Some?
    ensures var n := |polls| - 1; var p := polls[n];
      && t.shouldList == p.backend.value.shouldList && t.nextStart == p.backend.value.nextStart
      && t.checked == p.checked && t.stamped == p.stamped
      && t.reply == p.reply && t.rentals == p.rentals && t.price == p.price
      && Vast.Run(s, Events(polls, cfg)) == Vast.UpdateStep(Vast.Run(s, Events(polls[..n], cfg)).(wish := p.wish), t)
      && CacheAfter(polls, cfg) == CacheAfter(polls[..n], cfg)
  {
    PollRuns(s, polls, cfg);
    t := TickOf(polls[|polls| - 1], Used(polls, cfg).value);
    hide Vast.Run, Events, Vast.UpdateStep;
  }

  // ---- how old it may be by the clock --------------------------------------------------------

  /** Consecutive polls are at most `step` seconds apart. */
  predicate Paced(polls: seq<Poll>, step: int) {
    forall i :: 0 < i < |polls| ==> polls[i].checked - polls[i - 1].checked <= step
  }

  predicate Unanswered(polls: seq<Poll>) {
    forall i :: 0 <= i < |polls| ==> polls[i].backend == None
  }

  lemma {:induction false} AllFallBack(polls: seq<Poll>)
    requires Unanswered(polls)
    ensures Fallbacks(polls) == |polls|
  {
    if polls != [] {
      AllFallBack(polls[..|polls| - 1]);
    }
  }

  lemma {:induction false} PacedTime(polls: seq<Poll>, step: int, k: nat)
    requires Paced(polls, step) && k < |polls|
    ensures polls[|polls| - 1].checked - polls[k].checked <= step * (|polls| - 1 - k)
  {
    if k < |polls| - 1 {
      PacedTime(polls[..|polls| - 1], step, k);
      assert step * (|polls| - 1 - k) == step * (|polls| - 2 - k) + step;
    }
  }

  lemma TimesBound(interval: real, refresh: real, step: int, count: int, age: int)
    requires interval >= 0.0 && step > 0 && age <= step * count && interval * count as real < refresh
    ensures interval * age as real < refresh * step as real
  {
    var x, y := count as real, step as real;
    assert (step * count) as real == y * x;
    assert interval * (y * x - age as real) >= 0.0;
    assert (refresh - interval * x) * y > 0.0;
  }

  /** While the backend stays away, the cached schedule is younger than the refresh interval,
      stretched by what the polls are further apart than the loop counts. */
  lemma AgeIsBounded(polls: seq<Poll>, cfg: Settings, k: nat, step: int)
    requires LastBuild(polls, cfg, k) && k < |polls| - 1 && Unanswered(polls[k + 1..])
    requires cfg.interval >= 0.0 && step > 0 && Paced(polls, step)
    ensures cfg.interval * (polls[|polls| - 1].checked - polls[k].checked) as real < cfg.refresh * step as real
  {
    hide CacheAfter, RebuildsAt, Fallbacks, LastBuild, Paced, Used;
    var count := |polls| - 1 - k;
    assert polls[k + 1..][count - 1] == polls[|polls| - 1];
    var j := FallbackUses(polls, cfg);
    OneLastBuild(polls, cfg, k);
    AllFallBack(polls[k + 1..]);
    PacedTime(polls, step, k);
    TimesBound(cfg.interval, cfg.refresh, step, count, polls[|polls| - 1].checked - polls[k].checked);
  }

  /** `n` polls that the backend answers with `x`, `step` seconds apart, between two it does not. */
  function AnsweredBetween(n: nat, step: int, x: Weather.Schedule): (polls: seq<Poll>)
    ensures |polls| == n + 2 && Paced(polls, step)
  {
    seq(n + 2, i requires 0 <= i < n + 2 =>
      Poll(Vast.FollowSchedule, if i == 0 || i == n + 1 then None else Some(x), Some(x),
           i * step, i * step, Vast.Done, Vast.ListOf(0), Vast.NoPrice))
  }

  lemma {:induction false} AnsweredKeeps(polls: seq<Poll>, cfg: Settings)
    requires polls != [] && polls[0].backend == None
    requires forall i :: 0 < i < |polls| ==> polls[i].backend.Some?
    ensures CacheAfter(polls, cfg) == Cache(polls[0].local, 0.0) && LastBuild(polls, cfg, 0)
  {
    if |polls| == 1 {
      assert CacheAfter(polls[..0], cfg) == EMPTY;
    } else {
      var n := |polls| - 1;
      AnsweredKeeps(polls[..n], cfg);
      forall i | 0 <= i < n ensures RebuildsAt(polls[..n], cfg, i) == RebuildsAt(polls, cfg, i) {
        RebuildsEarlier(polls, cfg, i);
      }
      assert !RebuildsAt(polls, cfg, n);
      hide RebuildsAt;
    }
  }

  /** With the backend back in between there is no such bound: however long ago the schedule
      was built, there is a run, polled every `step` seconds, that is driven by it. */
  lemma CacheOutlives(n: nat, step: int, cfg: Settings, x: Weather.Schedule) returns (polls: seq<Poll>)
    requires cfg.interval < cfg.refresh
    ensures |polls| == n + 2 && Paced(polls, step) && FallsBack(polls) && LastBuild(polls, cfg, 0)
    ensures Used(polls, cfg) == polls[0].local == Some(x)
    ensures polls[n + 1].checked - polls[0].checked == (n + 1) * step
  {
    polls := AnsweredBetween(n, step, x);
    AnsweredKeeps(polls[..n + 1], cfg);
    forall i | 0 <= i < n + 1 ensures RebuildsAt(polls[..n + 1], cfg, i) == RebuildsAt(polls, cfg, i) {
      RebuildsEarlier(polls, cfg, i);
    }
    assert CacheAfter(polls, cfg) == CacheStep(CacheAfter(polls[..n + 1], cfg), polls[n + 1], cfg);
    assert !RebuildsAt(polls, cfg, n + 1);
    hide RebuildsAt, CacheAfter;
  }

  // ---- what that means for the listing -----------------------------------------------------------

  /** Any tick the backend did not answer, on a schedule built from a forecast: the provider
      wants the machine listed if and only if the schedule said so when it was built, or the
      first window after that moment starts in the lead time shifted by the schedule's age
      and by how far local time is ahead of UTC. */
  lemma FallbackDecides(polls: seq<Poll>, cfg: Settings, k: nat, hours: seq<Weather.Hour>, cold: real,
                        hot: Option<real>, minHours: real, now: int, age: int, ahead: int, s: Vast.Machine)
    requires FallsBack(polls) && LastBuild(polls, cfg, k) && s.wish == Vast.FollowSchedule
    requires polls[k].local == Some(Weather.BuildSchedule(hours, cold, hot, minHours, now))
    requires polls[|polls| - 1].checked == now + age - ahead
    ensures Used(polls, cfg).Some?
    ensures var t := TickOf(polls[|polls| - 1], Used(polls, cfg).value);
      UsedLater(hours, cold, hot, minHours, now, age, ahead, t)
      && (Vast.Wanted(s, t) <==>
            t.shouldList || NextWithin(Weather.Windows(Weather.Cold, hours, cold, minHours),
                                       Weather.HotWindows(hours, hot, minHours),
                                       now, age - ahead, s.preList + age - ahead))
  {
    var j := FallbackUses(polls, cfg);
    OneLastBuild(polls, cfg, k);
    var t := TickOf(polls[|polls| - 1], Used(polls, cfg).value);
    hide Weather.BuildSchedule, Weather.Windows, Weather.HotWindows, LastBuild, Used;
    PreListing(hours, cold, hot, minHours, now, age, ahead, s, t);
  }

  /** So a window that begins after a schedule was built that says to list goes unheeded at
      every tick until the rebuild. While the backend stays away that is for less than the
      refresh interval (stretched as above); the rebuild is the first poll that makes it up. */
  lemma UnheededUntilRebuild(polls: seq<Poll>, cfg: Settings, k: nat, x: Weather.Schedule, step: int, s: Vast.Machine)
    requires FallsBack(polls) && LastBuild(polls, cfg, k) && polls[k].local == Some(x) && x.shouldList
    requires s.wish == Vast.FollowSchedule
    ensures Used(polls, cfg) == Some(x) && Vast.Wanted(s, TickOf(polls[|polls| - 1], x))
    ensures Unanswered(polls[k + 1..]) && cfg.interval >= 0.0 && step > 0 && Paced(polls, step) && k < |polls| - 1 ==>
      cfg.interval * (polls[|polls| - 1].checked - polls[k].checked) as real < cfg.refresh * step as real
  {
    var j := FallbackUses(polls, cfg);
    OneLastBuild(polls, cfg, k);
    hide LastBuild, Used;
    if Unanswered(polls[k + 1..]) && cfg.interval >= 0.0 && step > 0 && Paced(polls, step) && k < |polls| - 1 {
      AgeIsBounded(polls, cfg, k, step);
    }
  }

  // ---- the state machine in the loop --------------------------------------------------------------

  /** No tick of a running agent ever finds the machine in the transient state: the tick that
      leaves it there has raised and ended the loop. */
  lemma {:induction false} NeverFoundListing(s: Vast.Machine, polls: seq<Poll>, cfg: Settings)
    requires s.enabled && s.phase != Vast.Listing
    requires forall j :: 0 <= j < |polls| ==> !RaisesAt(s, polls, cfg, j)
    ensures Vast.Run(s, Events(polls, cfg)).enabled && Vast.Run(s, Events(polls, cfg)).phase != Vast.Listing
  {
    if polls != [] {
      var n := |polls| - 1;
      forall j | 0 <= j < n ensures !RaisesAt(s, polls[..n], cfg, j) {
        RaisesEarlier(s, polls, cfg, j);
      }
      NeverFoundListing(s, polls[..n], cfg);
      PollRuns(s, polls, cfg);
      assert polls[..n + 1] == polls && !RaisesAt(s, polls, cfg, n);
      var found := MachineAt(s, polls, cfg, n);
      assert found.enabled && found.phase != Vast.Listing;
      hide Used, MachineAt, Vast.Run;
      if Used(polls, cfg).Some? {
        VastLaws.StepTransient(found, Vast.Update(TickOf(polls[n], Used(polls, cfg).value)));
      }
    }
  }

  lemma RaisesEarlier(s: Vast.Machine, polls: seq<Poll>, cfg: Settings, j: nat)
    requires j < |polls| - 1
    ensures RaisesAt(s, polls[..|polls| - 1], cfg, j) == RaisesAt(s, polls, cfg, j)
  {
    var n := |polls| - 1;
    assert polls[..n][..j] == polls[..j] && polls[..n][..j + 1] == polls[..j + 1];
    hide Vast.Raises, Vast.Step, Vast.Run, Used, Events;
  }
}
