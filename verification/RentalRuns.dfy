/** What a start and a teardown achieve when nothing comes in between. */
module RentalRuns {
  import opened Rental
  import opened RentalDocker
  import opened RentalSafety

  /** A start left to itself. */
  function Started(s: State, t: TaskId, outcome: CreateOutcome): State {
    Step(Step(Step(s, Creates(t, outcome)), Registers(t)), ActivatePosted(t))
  }

  /** A start activates its session exactly if its name was free and Docker started the
      container; then the session is in the map under the container that now runs, and one
      activation is posted. Otherwise the map and the posts stay as they were. */
  lemma StartActivates(s: State, t: TaskId, sid: Sid, outcome: CreateOutcome)
    requires t in s.tasks && s.tasks[t] == Creating(sid)
    ensures var done, name, cid := Started(s, t, outcome), ContainerName(sid), s.nextContainer;
      && done.tasks == s.tasks - {t}
      && if name !in s.docker && outcome == Running
         then done.active == s.active[sid := cid] && done.posts == s.posts + [Activated(t, sid, cid)]
              && done.docker == s.docker[name := Container(cid, true)]
         else done.active == s.active && done.posts == s.posts
              && (done.docker != s.docker ==> outcome == MadeNotStarted)
              && (done.docker != s.docker ==> done.docker == s.docker[name := Container(cid, false)])
  {
    hide ContainerName, Contains, DispatchAll, Spawn;
    var first := Step(s, Creates(t, outcome));
    assert (s.tasks[t := Created(sid, s.nextContainer)])[t := Activating(sid, s.nextContainer)] - {t} == s.tasks - {t};
  }

  function Removals(t: TaskId, names: seq<string>): seq<Event> {
    if names == [] then [] else Removals(t, names[..|names| - 1]) + [StopRemoves(t, names[|names| - 1], Removed)]
  }

  /** The listed containers are still there under their names. */
  predicate Present(docker: map<string, Container>, todo: map<string, ContainerId>) {
    forall n :: n in todo ==> n in docker && docker[n].id == todo[n]
  }

  /** `s` with these containers removed by teardown `t`. */
  function Without(s: State, t: TaskId, sid: Sid, todo: map<string, ContainerId>, names: set<string>): State {
    s.(docker := s.docker - names, tasks := s.tasks[t := StopRemoving(sid, todo - names)])
  }

  lemma RemoveOne(s: State, t: TaskId, sid: Sid, todo: map<string, ContainerId>, names: set<string>, name: string)
    requires Present(s.docker, todo) && name in todo && t in s.tasks
    ensures Step(Without(s, t, sid, todo, names), StopRemoves(t, name, Removed))
         == Without(s, t, sid, todo, names + {name})
  {
    hide ContainerName, Contains, DispatchAll, Spawn;
    var before := Without(s, t, sid, todo, names);
    assert todo - (names + {name}) == (todo - names) - {name};
    assert s.docker - (names + {name}) == (s.docker - names) - {name};
    if name in names {
      assert names + {name} == names;
    } else {
      var task := StopRemoving(sid, todo - (names + {name}));
      assert before.tasks[t := task] == s.tasks[t := task];
    }
  }

  lemma {:induction false} RemoveAll(s: State, t: TaskId, sid: Sid, todo: map<string, ContainerId>, names: seq<string>)
    requires Present(s.docker, todo) && t in s.tasks && s.tasks[t] == StopRemoving(sid, todo)
    requires forall n :: n in names ==> n in todo
    ensures Run(s, Removals(t, names)) == Without(s, t, sid, todo, (set n | n in names))
  {
    hide Step, Present;
    if names == [] {
      assert s.docker - {} == s.docker && todo - {} == todo && s.tasks[t := s.tasks[t]] == s.tasks;
      assert (set n | n in names) == {};
    } else {
      var k := |names| - 1;
      var earlier := set n | n in names[..k];
      RemoveAll(s, t, sid, todo, names[..k]);
      RemoveOne(s, t, sid, todo, earlier, names[k]);
      assert (set n | n in names) == earlier + {names[k]};
      RemovalsMore(t, names);
      RunMore(s, Removals(t, names[..k]), StopRemoves(t, names[k], Removed));
      hide *;
    }
  }

  lemma RemovalsMore(t: TaskId, names: seq<string>)
    requires names != []
    ensures Removals(t, names) == Removals(t, names[..|names| - 1]) + [StopRemoves(t, names[|names| - 1], Removed)]
  {}

  lemma RunMore(s: State, es: seq<Event>, e: Event)
    ensures Run(s, es + [e]) == Step(Run(s, es), e)
  {
    hide Step;
    assert (es + [e])[..|es|] == es;
  }

  /** The containers a name filter does not find. */
  function Unmatched(docker: map<string, Container>, name: string): map<string, Container> {
    map n | n in docker && !Contains(n, name) :: docker[n]
  }

  /** The names Docker's filter finds for a session. */
  ghost predicate Enumerates(names: seq<string>, docker: map<string, Container>, sid: Sid) {
    forall n :: n in names <==> n in docker && Contains(n, ContainerName(sid))
  }

  lemma TeardownLists(s: State, t: TaskId, sid: Sid)
    requires t in s.tasks && s.tasks[t] == StopListing(sid)
    ensures var listed := Step(s, StopLists(t, true));
      var todo := Matches(s.docker, ContainerName(sid));
      listed == s.(active := s.active - {sid}, tasks := s.tasks[t := StopRemoving(sid, todo)])
      && Present(listed.docker, todo)
  {
    hide Contains, ContainerName, DispatchAll, Spawn;
  }

  lemma TeardownEnds(s: State, t: TaskId, sid: Sid)
    requires t in s.tasks && s.tasks[t] == StopRemoving(sid, map[])
    ensures Step(Step(s, StopFinishes(t)), StopPosted(t))
         == s.(stopping := s.stopping - {sid}, posts := s.posts + [Stopped(sid)], tasks := s.tasks - {t})
  {
    hide Contains, ContainerName, DispatchAll, Spawn;
    assert s.tasks[t := StopPosting(sid)] - {t} == s.tasks - {t};
  }

  /** A teardown left to itself removes exactly the containers Docker's filter finds, takes
      the session out of the map and out of the guard, and posts one stop. */
  lemma TeardownReaps(s: State, t: TaskId, sid: Sid, names: seq<string>)
    requires t in s.tasks && s.tasks[t] == StopListing(sid) && Enumerates(names, s.docker, sid)
    ensures var emptied := Run(Step(s, StopLists(t, true)), Removals(t, names));
      Step(Step(emptied, StopFinishes(t)), StopPosted(t))
      == s.(docker := Unmatched(s.docker, ContainerName(sid)),
            active := s.active - {sid}, stopping := s.stopping - {sid},
            posts := s.posts + [Stopped(sid)], tasks := s.tasks - {t})
  {
    hide Step, Run, Removals, Present, Contains, ContainerName;
    var listed := Step(s, StopLists(t, true));
    var todo, gone := Matches(s.docker, ContainerName(sid)), set n | n in names;
    TeardownLists(s, t, sid);
    RemoveAll(listed, t, sid, todo, names);
    AllGone(s.docker, sid, names);
    var emptied := Without(listed, t, sid, todo, gone);
    TeardownEnds(emptied, t, sid);
    assert emptied.tasks - {t} == s.tasks - {t};
    hide Matches, Unmatched;
  }

  lemma AllGone(docker: map<string, Container>, sid: Sid, names: seq<string>)
    requires Enumerates(names, docker, sid)
    ensures var gone := set n | n in names;
      && Matches(docker, ContainerName(sid)) - gone == map[]
      && docker - gone == Unmatched(docker, ContainerName(sid))
      && forall n :: n in names ==> n in Matches(docker, ContainerName(sid))
  {
    hide Contains, ContainerName;
  }

  /** So of all sessions' containers a teardown removes exactly those of the sessions whose id
      begins as the short id torn down (a dot in which stands for any character): its own
      session's, or one that shares its name, and every session's if the entry came without an
      id. */
  lemma TeardownHits(s: State, t: TaskId, sid: Sid, names: seq<string>, other: Sid)
    requires t in s.tasks && s.tasks[t] == StopListing(sid) && Enumerates(names, s.docker, sid)
    ensures var emptied := Run(Step(s, StopLists(t, true)), Removals(t, names));
      var done := Step(Step(emptied, StopFinishes(t)), StopPosted(t));
      && (ContainerName(other) in done.docker <==>
            ContainerName(other) in s.docker && !Fits(Prefix(sid), Prefix(other)))
      && (sid == "" ==> ContainerName(other) !in done.docker)
      && (|sid| >= 8 && |other| >= 8 && '.' !in Prefix(sid) && Prefix(other) != Prefix(sid) ==>
            (ContainerName(other) in done.docker <==> ContainerName(other) in s.docker))
  {
    TeardownReaps(s, t, sid, names);
    FilterIsExact(other, sid);
    FilterCases(other, sid);
    NamesCollide(other, sid);
    hide Run, Step, Removals, Contains, ContainerName, Enumerates;
  }

  lemma CountedIn(tasks: seq<Task>, task: Task) returns (i: nat)
    requires multiset(tasks)[task] > 0
    ensures i < |tasks| && tasks[i] == task
  {
    assert task in tasks;
    i :| 0 <= i < |tasks| && tasks[i] == task;
  }

  /** After a restart the agent knows of no session. Still a heartbeat that says to stop one
      begins its teardown, and left to itself that leaves no container of the session's name. */
  lemma RestartReaps(s: State, entries: seq<Entry>, sid: Sid, names: seq<string>) returns (t: TaskId)
    requires Entry(sid, Stopping) in entries && Enumerates(names, s.docker, sid)
    ensures var begun := Step(Step(s, AgentRestarts), Heartbeat(entries));
      && t in begun.tasks && begun.tasks[t] == StopListing(sid) && sid in begun.stopping
      && var emptied := Run(Step(begun, StopLists(t, true)), Removals(t, names));
         var done := Step(Step(emptied, StopFinishes(t)), StopPosted(t));
         && ContainerName(sid) !in done.docker && sid !in done.stopping
         && done.posts == s.posts + [Stopped(sid)]
  {
    var restarted := Step(s, AgentRestarts);
    var spawned := HeartbeatExactly(restarted, entries);
    assert sid in IdsOf(entries, Stopping);
    var i := CountedIn(spawned, StopListing(sid));
    t := restarted.nextTask + i;
    var begun := Step(restarted, Heartbeat(entries));
    assert begun.docker == s.docker && begun.posts == s.posts;
    TeardownReaps(begun, t, sid, names);
    FilterCases(sid, sid);
    hide Run, Step, Removals, Contains, ContainerName, Enumerates, IdsOf, Answers;
  }
}
