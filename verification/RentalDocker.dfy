/** Sessions and their containers: who made what, who may say so, and when a loss is reported. */
module RentalDocker {
  import opened Text
  import opened Rental
  import opened RentalSafety

  // ---- names ------------------------------------------------------------------------

  /** Two sessions share a container name exactly when their first eight characters agree. */
  lemma NamesCollide(x: Sid, y: Sid)
    ensures ContainerName(x) == ContainerName(y) <==> Prefix(x) == Prefix(y)
  {
    assert ContainerName(x)[|NAME_PREFIX|..] == Prefix(x);
    assert ContainerName(y)[|NAME_PREFIX|..] == Prefix(y);
  }

  lemma {:induction false} ContainedAt(s: string, part: string) returns (k: nat)
    requires Contains(s, part)
    ensures k <= |s| && Fits(part, s[k..])
  {
    hide Fits;
    if Fits(part, s) {
      k := 0;
    } else {
      var j := ContainedAt(s[1..], part);
      k := j + 1;
      assert s[1..][j..] == s[k..];
    }
  }

  lemma {:induction false} FoundAt(s: string, part: string, k: nat)
    requires k <= |s| && Fits(part, s[k..])
    ensures Contains(s, part)
  {
    hide Fits;
    if k == 0 {
      assert s[0..] == s;
    } else {
      assert s[1..][k - 1..] == s[k..];
      FoundAt(s[1..], part, k - 1);
    }
  }

  /** The filter finds a name, of whatever container, if and only if it matches somewhere in it. */
  lemma FoundAnywhere(s: string, part: string)
    ensures Contains(s, part) <==> exists k :: 0 <= k <= |s| && Fits(part, s[k..])
  {
    hide Fits;
    if Contains(s, part) {
      var k := ContainedAt(s, part);
    }
    if k :| 0 <= k <= |s| && Fits(part, s[k..]) {
      FoundAt(s, part, k);
    }
  }

  /** The common part of all container names starts with a letter that does not come again
      in its next eight places. */
  lemma NoOffset()
    ensures |NAME_PREFIX| == 14 && '.' !in NAME_PREFIX && forall k :: 1 <= k <= 8 ==> NAME_PREFIX[k] != NAME_PREFIX[0]
  {}

  /** Docker's name filter for one session finds another's container exactly when the other's
      short id begins as its own, dots in its own standing for any character. */
  lemma FilterIsExact(x: Sid, y: Sid)
    ensures Contains(ContainerName(x), ContainerName(y)) <==> Fits(Prefix(y), Prefix(x))
  {
    var s, part := ContainerName(x), ContainerName(y);
    assert |s| == |NAME_PREFIX| + |Prefix(x)| && |Prefix(x)| <= 8;
    NoOffset();
    hide Prefix;
    if Contains(s, part) {
      var k := ContainedAt(s, part);
      assert k <= 8 && s[k] == NAME_PREFIX[k];
      assert s[k..][0] == part[0] == NAME_PREFIX[0] && s[k..][0] == s[k];
      assert k == 0;
      assert s[0..] == s;
      hide Contains;
      forall i | 0 <= i < |Prefix(y)| ensures Prefix(y)[i] == '.' || Prefix(y)[i] == Prefix(x)[i] {
        assert Prefix(y)[i] == part[|NAME_PREFIX| + i] && Prefix(x)[i] == s[|NAME_PREFIX| + i];
      }
    }
    if Fits(Prefix(y), Prefix(x)) {
      hide Contains;
      assert Fits(part, s);
    }
  }

  /** For full ids without a dot that is only where the two share their name; every session's
      filter finds its own container, and an entry without an id those of all sessions. */
  lemma FilterCases(x: Sid, y: Sid)
    ensures |x| >= 8 && |y| >= 8 && '.' !in Prefix(y) ==>
      (Contains(ContainerName(x), ContainerName(y)) <==> ContainerName(x) == ContainerName(y))
    ensures Contains(ContainerName(x), ContainerName(x)) && Contains(ContainerName(x), ContainerName(""))
  {
    FilterIsExact(x, y);
    FilterIsExact(x, x);
    FilterIsExact(x, "");
    NamesCollide(x, y);
    hide Contains, ContainerName;
  }

  /** A shorter id's teardown also finds containers of sessions it is a prefix of, and one
      with a dot those that differ from it there. */
  lemma ShortIdFindsOthers()
    ensures Contains(ContainerName("abcdefgh"), ContainerName("ab")) && Prefix("abcdefgh") != Prefix("ab")
    ensures Contains(ContainerName("abcdefgh"), ContainerName("ab.defgh")) && Prefix("abcdefgh") != Prefix("ab.defgh")
  {
    FilterIsExact("abcdefgh", "ab");
    FilterIsExact("abcdefgh", "ab.defgh");
    hide Contains, ContainerName;
    assert "abcdefgh"[2] == 'c' && "ab.defgh"[2] == '.';
  }

  // ---- who made a container -----------------------------------------------------------

  ghost predicate Made(s: State) {
    && (forall n :: n in s.docker ==> s.docker[n].id < s.nextContainer)
    && (forall c :: c in s.makers ==> c < s.nextContainer && s.makers[c].task < s.nextTask)
    && (forall n :: n in s.docker && s.docker[n].id in s.makers ==> ContainerName(s.makers[s.docker[n].id].sid) == n)
    && (forall t :: t in s.tasks && s.tasks[t].Won() ==>
          s.tasks[t].cid in s.makers && s.makers[s.tasks[t].cid] == Maker(t, s.tasks[t].sid))
    && (forall i :: 0 <= i < |s.posts| && s.posts[i].Activated? ==>
          s.posts[i].cid in s.makers && s.makers[s.posts[i].cid] == Maker(s.posts[i].starter, s.posts[i].sid))
    && (forall t :: t in s.tasks ==> t < s.nextTask)
  }

  lemma CreateMade(s: State, t: TaskId, sid: Sid, outcome: CreateOutcome)
    requires Made(s) && t in s.tasks && s.tasks[t] == Creating(sid)
    ensures Made(CreateStep(s, t, sid, outcome))
  {
    hide ContainerName;
  }

  lemma StartStepMade(s: State, e: Event, t: TaskId)
    requires Made(s) && t in s.tasks && (s.tasks[t].Creating? || s.tasks[t].Won())
    ensures Made(TaskStep(s, e, t, s.tasks[t]))
  {
    hide ContainerName, CreateStep, Contains;
    if s.tasks[t].Creating? && e.Creates? {
      CreateMade(s, t, s.tasks[t].sid, e.outcome);
    }
  }

  /** Teardowns and reconciles make no containers and post no activation. */
  ghost predicate MakesNothing(s: State, s': State, t: TaskId) {
    && s'.makers == s.makers && s'.nextContainer == s.nextContainer
    && (forall n :: n in s'.docker ==> n in s.docker && s'.docker[n].id == s.docker[n].id)
    && (t in s'.tasks ==> !s'.tasks[t].Won())
    && (s'.posts == s.posts || (exists p: Post :: s'.posts == s.posts + [p] && !p.Activated?))
  }

  lemma StopMakesNothing(s: State, e: Event, t: TaskId)
    requires t in s.tasks && (s.tasks[t].Tearing() || s.tasks[t].StopPosting?)
    ensures MakesNothing(s, TaskStep(s, e, t, s.tasks[t]), t)
  {
    hide ContainerName, Contains;
    if e.StopPosted? && s.tasks[t].StopPosting? {
      var p := Stopped(s.tasks[t].sid);
      assert !p.Activated? && TaskStep(s, e, t, s.tasks[t]).posts == s.posts + [p];
    }
  }

  lemma ReconcileMakesNothing(s: State, e: Event, t: TaskId)
    requires t in s.tasks && s.tasks[t].Reconciles()
    ensures MakesNothing(s, TaskStep(s, e, t, s.tasks[t]), t)
  {
    hide ContainerName, Contains;
    if e.LostPosted? && s.tasks[t].Losing? {
      var p := Lost(t, s.tasks[t].sid);
      assert !p.Activated? && TaskStep(s, e, t, s.tasks[t]).posts == s.posts + [p];
    }
  }

  lemma OtherStepMade(s: State, e: Event, t: TaskId)
    requires Made(s) && t in s.tasks && !s.tasks[t].Creating? && !s.tasks[t].Won()
    ensures Made(TaskStep(s, e, t, s.tasks[t]))
  {
    TaskStepMoves(s, e, t);
    if s.tasks[t].Reconciles() {
      ReconcileMakesNothing(s, e, t);
    } else {
      StopMakesNothing(s, e, t);
    }
    hide TaskStep, ContainerName;
  }

  /** How every task begins. */
  predicate Fresh(task: Task) {
    task.Creating? || task.Looking? || task.StopListing?
  }

  predicate AllFresh(spawned: seq<Task>) {
    forall i :: 0 <= i < |spawned| ==> Fresh(spawned[i])
  }

  lemma DispatchOneFresh(active: map<Sid, ContainerId>, d: Dispatch, e: Entry)
    requires AllFresh(d.spawned)
    ensures AllFresh(DispatchOne(active, d, e).spawned)
  {}

  lemma {:induction false} DispatchFresh(active: map<Sid, ContainerId>, d: Dispatch, entries: seq<Entry>)
    requires AllFresh(d.spawned)
    ensures AllFresh(DispatchAll(active, d, entries).spawned)
  {
    hide DispatchOne, AllFresh;
    if entries != [] {
      var n := |entries| - 1;
      DispatchFresh(active, d, entries[..n]);
      DispatchOneFresh(active, DispatchAll(active, d, entries[..n]), entries[n]);
    }
  }

  lemma {:induction false} SpawnAdds(tasks: map<TaskId, Task>, next: TaskId, spawned: seq<Task>)
    requires AllFresh(spawned)
    ensures forall t :: t in Spawn(tasks, next, spawned) ==>
      (t in tasks && Spawn(tasks, next, spawned)[t] == tasks[t])
      || (next <= t < next + |spawned| && Fresh(Spawn(tasks, next, spawned)[t]))
  {
    hide Fresh;
    if spawned != [] {
      SpawnAdds(tasks, next, spawned[..|spawned| - 1]);
    }
  }

  /** After a heartbeat every task is an old one, untouched, or a fresh one under a new id. */
  lemma HeartbeatAdds(s: State, entries: seq<Entry>)
    ensures var s' := Step(s, Heartbeat(entries));
      && s' == s.(stopping := s'.stopping, reconciling := s'.reconciling, tasks := s'.tasks, nextTask := s'.nextTask)
      && s.nextTask <= s'.nextTask
      && forall t :: t in s'.tasks ==>
           (t in s.tasks && s'.tasks[t] == s.tasks[t]) || (s.nextTask <= t < s'.nextTask && Fresh(s'.tasks[t]))
  {
    hide DispatchAll, Spawn, Fresh;
    var d := Dispatch(s.stopping, s.reconciling, []);
    assert AllFresh(d.spawned);
    hide AllFresh;
    DispatchFresh(s.active, d, entries);
    SpawnAdds(s.tasks, s.nextTask, DispatchAll(s.active, d, entries).spawned);
  }

  lemma StepMade(s: State, e: Event)
    requires Made(s)
    ensures Made(Step(s, e))
  {
    hide TaskStep, ContainerName;
    if e.Heartbeat? {
      HeartbeatAdds(s, e.entries);
      hide Step;
    } else if OfTask(e) && e.task in s.tasks {
      hide Made;
      if s.tasks[e.task].Creating? || s.tasks[e.task].Won() {
        StartStepMade(s, e, e.task);
      } else {
        OtherStepMade(s, e, e.task);
      }
    }
  }

  /** Over every run, every activate post belongs to a start whose own create made that
      container, for that session. */
  lemma {:induction false} RunMade(s: State, es: seq<Event>)
    requires Made(s)
    ensures Made(Run(s, es))
  {
    hide Made, Step;
    if es != [] {
      RunMade(s, es[..|es| - 1]);
      StepMade(Run(s, es[..|es| - 1]), es[|es| - 1]);
    }
  }

  ghost predicate InDocker(s: State, cid: ContainerId) {
    exists n :: n in s.docker && s.docker[n].id == cid
  }

  /** Of all the activations ever posted under one container name, at most one still has its
      container. */
  lemma OneLiveActivation(s: State, i: nat, j: nat)
    requires Made(s) && i < |s.posts| && j < |s.posts| && s.posts[i].Activated? && s.posts[j].Activated?
    requires Prefix(s.posts[i].sid) == Prefix(s.posts[j].sid)
    requires InDocker(s, s.posts[i].cid) && InDocker(s, s.posts[j].cid)
    ensures s.posts[i] == s.posts[j]
  {
    NamesCollide(s.posts[i].sid, s.posts[j].sid);
    hide ContainerName;
  }

  // ---- overlapping starts ---------------------------------------------------------------

  /** While a name stays taken, its container stays the same and no start makes another. */
  ghost predicate NoSecond(s: State, s': State, name: string) {
    && (name in s.docker && name in s'.docker ==> s'.docker[name].id == s.docker[name].id)
    && (forall c :: c in s.makers ==> c in s'.makers && s'.makers[c] == s.makers[c])
    && (name in s.docker ==> forall c :: c in s'.makers && c !in s.makers ==> ContainerName(s'.makers[c].sid) != name)
  }

  lemma CreateNoSecond(s: State, t: TaskId, sid: Sid, outcome: CreateOutcome, name: string)
    requires Made(s)
    ensures NoSecond(s, CreateStep(s, t, sid, outcome), name)
  {
    hide ContainerName;
  }

  lemma WorldNoSecond(s: State, e: Event, name: string)
    ensures NoSecond(s, WorldStep(s, e), name)
  {
    hide ContainerName, DispatchAll, Spawn;
  }

  lemma StartNoSecond(s: State, e: Event, t: TaskId, name: string)
    requires Made(s) && t in s.tasks && (s.tasks[t].Creating? || s.tasks[t].Won())
    ensures NoSecond(s, TaskStep(s, e, t, s.tasks[t]), name)
  {
    if e.Creates? && s.tasks[t].Creating? {
      CreateNoSecond(s, t, s.tasks[t].sid, e.outcome, name);
    }
    hide Made, ContainerName, CreateStep;
  }

  lemma StepNoSecond(s: State, e: Event, name: string)
    requires Made(s)
    ensures NoSecond(s, Step(s, e), name)
  {
    hide Made, ContainerName, TaskStep, WorldStep;
    if !OfTask(e) {
      WorldNoSecond(s, e, name);
    } else if e.task in s.tasks {
      var t := e.task;
      if s.tasks[t].Creating? || s.tasks[t].Won() {
        StartNoSecond(s, e, t, name);
      } else if s.tasks[t].Reconciles() {
        ReconcileMakesNothing(s, e, t);
      } else {
        StopMakesNothing(s, e, t);
      }
    }
  }

  /** However many starts for one name overlap, at most one of them gets its container made. */
  lemma {:induction false} OneWinner(s: State, es: seq<Event>, name: string)
    requires Made(s) && forall i :: 0 <= i <= |es| ==> name in Run(s, es[..i]).docker
    ensures name in s.docker && name in Run(s, es).docker && Run(s, es).docker[name].id == s.docker[name].id
    ensures forall c :: c in Run(s, es).makers && ContainerName(Run(s, es).makers[c].sid) == name ==>
      c in s.makers && s.makers[c] == Run(s, es).makers[c]
  {
    assert es[..|es|] == es && es[..0] == [];
    hide Step, ContainerName, Made;
    if es != [] {
      var n := |es| - 1;
      assert forall i :: 0 <= i <= n ==> es[..n][..i] == es[..i];
      OneWinner(s, es[..n], name);
      RunMade(s, es[..n]);
      StepNoSecond(Run(s, es[..n]), es[n], name);
    }
  }

  /** A task that is gone stays gone. */
  lemma StepKeepsGone(s: State, e: Event, t: TaskId)
    requires t < s.nextTask && t !in s.tasks
    ensures t < Step(s, e).nextTask && t !in Step(s, e).tasks
    ensures var posts := Step(s, e).posts;
      forall i :: 0 <= i < |posts| && posts[i].Activated? && posts[i].starter == t ==> posts[i] in s.posts
  {
    hide Contains, ContainerName;
    if e.Heartbeat? {
      HeartbeatAdds(s, e.entries);
      hide Step;
    } else if OfTask(e) && e.task in s.tasks {
      TaskStepMoves(s, e, e.task);
    }
  }

  lemma {:induction false} GoneIsSilent(s: State, es: seq<Event>, t: TaskId)
    requires t < s.nextTask && t !in s.tasks
    ensures t < Run(s, es).nextTask && t !in Run(s, es).tasks
    ensures var posts := Run(s, es).posts;
      forall i :: 0 <= i < |posts| && posts[i].Activated? && posts[i].starter == t ==> posts[i] in s.posts
  {
    hide Step;
    if es != [] {
      var n := |es| - 1;
      GoneIsSilent(s, es[..n], t);
      StepKeepsGone(Run(s, es[..n]), es[n], t);
    }
  }

  /** Event `i` of the run does nothing. */
  ghost predicate Idles(s: State, es: seq<Event>, i: nat)
    requires i < |es|
  {
    Step(Run(s, es[..i]), es[i]) == Run(s, es[..i])
  }

  /** A start that finds its name taken (or is refused otherwise) changes nothing but to end.
      In every continuation no event of its task does anything, so it neither registers its
      session in the active map nor posts an activation. */
  lemma LosingStart(s: State, t: TaskId, sid: Sid, outcome: CreateOutcome, es: seq<Event>)
    requires Made(s) && t in s.tasks && s.tasks[t] == Creating(sid)
    requires outcome == Refused || ContainerName(sid) in s.docker
    ensures Step(s, Creates(t, outcome)) == s.(tasks := s.tasks - {t})
    ensures var after := Step(s, Creates(t, outcome));
      forall i :: 0 <= i < |es| && OfTask(es[i]) && es[i].task == t ==> Idles(after, es, i)
    ensures var after := Run(Step(s, Creates(t, outcome)), es);
      forall i :: 0 <= i < |after.posts| && after.posts[i].Activated? && after.posts[i].starter == t ==>
        after.posts[i] in s.posts
  {
    hide ContainerName, Run;
    var after := Step(s, Creates(t, outcome));
    GoneIsSilent(after, es, t);
    forall i | 0 <= i < |es| && OfTask(es[i]) && es[i].task == t ensures Idles(after, es, i) {
      GoneIsSilent(after, es[..i], t);
    }
  }

  // ---- losses ------------------------------------------------------------------------------

  /** A reconcile that will report a loss if nothing goes wrong with its post. */
  predicate Suspects(task: Task) {
    (task.Reloading? && task.found.None?) || task.Missing? || task.Losing?
  }

  predicate LooksAtDocker(e: Event, t: TaskId) {
    e == Lists(t, true) || e == Reloads(t, true)
  }

  lemma ReconcileSuspects(s: State, e: Event, t: TaskId)
    requires t in s.tasks && s.tasks[t].Reconciles() && OfTask(e) && e.task == t
    requires t in TaskStep(s, e, t, s.tasks[t]).tasks && Suspects(TaskStep(s, e, t, s.tasks[t]).tasks[t])
    ensures Suspects(s.tasks[t]) || (LooksAtDocker(e, t) && !RunningUnder(s.docker, ContainerName(s.tasks[t].sid)))
  {
    hide ContainerName, Contains;
  }

  /** Suspicion only ever begins with a successful look that found no running match. */
  lemma SuspicionBegins(s: State, e: Event, t: TaskId)
    requires t in Step(s, e).tasks && Suspects(Step(s, e).tasks[t])
    ensures t in s.tasks && s.tasks[t].sid == Step(s, e).tasks[t].sid
    ensures Suspects(s.tasks[t]) || (LooksAtDocker(e, t) && !RunningUnder(s.docker, ContainerName(s.tasks[t].sid)))
  {
    hide ContainerName, Contains, TaskStep, LooksAtDocker, RunningUnder;
    if e.Heartbeat? {
      HeartbeatAdds(s, e.entries);
      hide Step;
    } else if OfTask(e) && e.task in s.tasks {
      TaskStepMoves(s, e, e.task);
      if t == e.task {
        ReconcileSuspects(s, e, t);
      }
    }
  }

  /** The successful look behind a suspicion. */
  lemma {:induction false} SuspicionHasEvidence(s: State, es: seq<Event>, t: TaskId) returns (k: nat)
    requires s.tasks == map[]
    requires t in Run(s, es).tasks && Suspects(Run(s, es).tasks[t])
    ensures k < |es| && LooksAtDocker(es[k], t)
    ensures !RunningUnder(Run(s, es[..k]).docker, ContainerName(Run(s, es).tasks[t].sid))
  {
    hide Step, ContainerName, Suspects, LooksAtDocker;
    var n := |es| - 1;
    assert es != [];
    var before := Run(s, es[..n]);
    SuspicionBegins(before, es[n], t);
    if Suspects(before.tasks[t]) {
      k := SuspicionHasEvidence(s, es[..n], t);
      assert es[..n][..k] == es[..k];
    } else {
      k := n;
    }
  }

  /** A loss is reported only after a successful look at Docker, by the very task that
      reports it, showed no running container of that exact name. */
  lemma {:induction false} LossHadEvidence(s: State, es: seq<Event>, i: nat) returns (k: nat)
    requires s.tasks == map[] && s.posts == []
    requires i < |Run(s, es).posts| && Run(s, es).posts[i].Lost?
    ensures k < |es| && LooksAtDocker(es[k], Run(s, es).posts[i].finder)
    ensures !RunningUnder(Run(s, es[..k]).docker, ContainerName(Run(s, es).posts[i].sid))
  {
    hide Step, ContainerName, LooksAtDocker;
    var n := |es| - 1;
    assert es != [];
    var before := Run(s, es[..n]);
    PostsGrow(before, es[n]);
    if i < |before.posts| {
      k := LossHadEvidence(s, es[..n], i);
    } else {
      k := SuspicionHasEvidence(s, es[..n], Run(s, es).posts[i].finder);
    }
    assert es[..n][..k] == es[..k];
  }

  /** At most one post more, and a loss only by a task that was about to report it. */
  ghost predicate Grown(s: State, s': State) {
    || s'.posts == s.posts
    || exists p :: s'.posts == s.posts + [p]
                   && (p.Lost? ==> p.finder in s.tasks && s.tasks[p.finder] == Losing(p.sid))
  }

  lemma TaskPostsGrow(s: State, e: Event, t: TaskId)
    requires t in s.tasks
    ensures Grown(s, TaskStep(s, e, t, s.tasks[t]))
  {
    var s' := TaskStep(s, e, t, s.tasks[t]);
    match (e, s.tasks[t])
    case (ActivatePosted(_), Activating(sid, cid)) => assert s'.posts == s.posts + [Activated(t, sid, cid)];
    case (StopPosted(_), StopPosting(sid)) => assert s'.posts == s.posts + [Stopped(sid)];
    case (LostPosted(_), Losing(sid)) => assert s'.posts == s.posts + [Lost(t, sid)];
    case _ =>
      hide ContainerName, Contains, Grown;
      assert s'.posts == s.posts;
  }

  lemma PostsGrow(s: State, e: Event)
    ensures |s.posts| <= |Step(s, e).posts| <= |s.posts| + 1 && Step(s, e).posts[..|s.posts|] == s.posts
    ensures |Step(s, e).posts| > |s.posts| && Step(s, e).posts[|s.posts|].Lost? ==>
      var p := Step(s, e).posts[|s.posts|]; p.finder in s.tasks && s.tasks[p.finder] == Losing(p.sid)
  {
    hide DispatchAll, Spawn, TaskStep;
    if OfTask(e) && e.task in s.tasks {
      TaskPostsGrow(s, e, e.task);
    }
  }

  // ---- the active map ----------------------------------------------------------------------

  /** The event writes the entry of `sid`: a start registers it, a reconcile applies what it
      found, a teardown begins, or the agent restarts. */
  predicate Writes(s: State, e: Event, sid: Sid) {
    || e.AgentRestarts?
    || (OfTask(e) && e.task in s.tasks && s.tasks[e.task].sid == sid
        && ((e.Registers? && s.tasks[e.task].Created?)
            || (e.Applies? && (s.tasks[e.task].Found? || s.tasks[e.task].Missing?))
            || (e.StopLists? && s.tasks[e.task].StopListing?)))
  }

  ghost predicate SameEntry(a: map<Sid, ContainerId>, b: map<Sid, ContainerId>, sid: Sid) {
    (sid in a <==> sid in b) && (sid in a ==> a[sid] == b[sid])
  }

  lemma TaskKeepsEntry(s: State, e: Event, t: TaskId, sid: Sid)
    requires OfTask(e) && e.task == t && t in s.tasks && !Writes(s, e, sid)
    ensures SameEntry(s.active, TaskStep(s, e, t, s.tasks[t]).active, sid)
  {
    hide ContainerName, Contains;
  }

  lemma StepKeepsEntry(s: State, e: Event, sid: Sid)
    requires !Writes(s, e, sid)
    ensures SameEntry(s.active, Step(s, e).active, sid)
  {
    hide ContainerName, Contains, DispatchAll, Spawn, TaskStep;
    if OfTask(e) && e.task in s.tasks {
      TaskKeepsEntry(s, e, e.task, sid);
    }
  }

  /** Over any run a session's entry, its presence and its container, changes only where one of
      its own tasks writes it or the agent restarts; other sessions' tasks never touch it. */
  lemma {:induction false} EntryFrame(s: State, es: seq<Event>, sid: Sid)
    requires forall i :: 0 <= i < |es| ==> !Writes(Run(s, es[..i]), es[i], sid)
    ensures SameEntry(s.active, Run(s, es).active, sid)
  {
    hide Step, Writes;
    if es != [] {
      var n := |es| - 1;
      assert forall i :: 0 <= i < n ==> es[..n][..i] == es[..i];
      EntryFrame(s, es[..n], sid);
      StepKeepsEntry(Run(s, es[..n]), es[n], sid);
    }
  }

  /** The event takes `sid` out of the map: its teardown begins, one of its reconciles found
      nothing running, or the agent restarts. */
  predicate Drops(s: State, e: Event, sid: Sid) {
    || e.AgentRestarts?
    || (e.StopLists? && e.task in s.tasks && s.tasks[e.task] == StopListing(sid))
    || (e.Applies? && e.task in s.tasks && s.tasks[e.task] == Missing(sid))
  }

  lemma StepDrops(s: State, e: Event, sid: Sid)
    requires sid in s.active && sid !in Step(s, e).active
    ensures Drops(s, e, sid)
  {
    hide ContainerName, Contains, DispatchAll, Spawn;
  }

  /** A session that has left the map in a run was dropped on purpose in it. */
  lemma {:induction false} DropsAreDeliberate(s: State, es: seq<Event>, sid: Sid) returns (k: nat)
    requires sid in s.active && sid !in Run(s, es).active
    ensures k < |es| && sid in Run(s, es[..k]).active && Drops(Run(s, es[..k]), es[k], sid)
  {
    hide Step, Drops;
    assert es != [];
    k := |es| - 1;
    if sid in Run(s, es[..k]).active {
      StepDrops(Run(s, es[..k]), es[k], sid);
    } else {
      var j := DropsAreDeliberate(s, es[..k], sid);
      assert es[..k][..j] == es[..j];
      k := j;
    }
  }

  /** Docker answers this event, if it is asked at all, with a failure. */
  predicate DockerFails(e: Event) {
    (e.Creates? ==> e.outcome == Refused) && (e.Lists? ==> !e.listed) && (e.Reloads? ==> !e.reloaded)
  }

  /** Nothing has been learnt from Docker: no start has a container and no reconcile a finding. */
  predicate Ignorant(task: Task) {
    task.Creating? || task.Looking? || task.Tearing() || task.StopPosting?
  }

  ghost predicate AllIgnorant(s: State) {
    forall t :: t in s.tasks ==> Ignorant(s.tasks[t])
  }

  lemma IgnorantTask(s: State, e: Event, t: TaskId)
    requires t in s.tasks && Ignorant(s.tasks[t]) && DockerFails(e) && OfTask(e) && e.task == t
    ensures t in TaskStep(s, e, t, s.tasks[t]).tasks ==> Ignorant(TaskStep(s, e, t, s.tasks[t]).tasks[t])
  {
    hide ContainerName, Contains;
  }

  lemma StepIgnorant(s: State, e: Event)
    requires AllIgnorant(s) && DockerFails(e)
    ensures AllIgnorant(Step(s, e))
  {
    hide ContainerName, Contains, TaskStep, DockerFails;
    if e.Heartbeat? {
      HeartbeatAdds(s, e.entries);
      hide Step;
    } else if OfTask(e) && e.task in s.tasks {
      TaskStepMoves(s, e, e.task);
      IgnorantTask(s, e, e.task);
    }
  }

  lemma {:induction false} RunIgnorant(s: State, es: seq<Event>)
    requires AllIgnorant(s) && forall i :: 0 <= i < |es| ==> DockerFails(es[i])
    ensures AllIgnorant(Run(s, es))
  {
    hide Step, AllIgnorant, DockerFails;
    if es != [] {
      RunIgnorant(s, es[..|es| - 1]);
      StepIgnorant(Run(s, es[..|es| - 1]), es[|es| - 1]);
    }
  }

  /** The agent goes on living and no teardown of `sid` begins. */
  predicate LeavesAlone(s: State, e: Event, sid: Sid) {
    !e.AgentRestarts? && !(e.StopLists? && e.task in s.tasks && s.tasks[e.task] == StopListing(sid))
  }

  /** However long Docker keeps failing, and whatever starts, heartbeats and reconciles come
      meanwhile: a session whose teardown does not begin stays in the map as it was. */
  lemma DockerErrorsPreserve(s: State, es: seq<Event>, sid: Sid)
    requires AllIgnorant(s)
    requires forall i :: 0 <= i < |es| ==> DockerFails(es[i]) && LeavesAlone(Run(s, es[..i]), es[i], sid)
    ensures SameEntry(s.active, Run(s, es).active, sid)
  {
    hide Step, Run, AllIgnorant, DockerFails, SameEntry;
    forall i | 0 <= i < |es| ensures !Writes(Run(s, es[..i]), es[i], sid) {
      RunIgnorant(s, es[..i]);
      IgnorantWritesNothing(Run(s, es[..i]), es[i], sid);
    }
    EntryFrame(s, es, sid);
  }

  lemma IgnorantWritesNothing(s: State, e: Event, sid: Sid)
    requires AllIgnorant(s) && LeavesAlone(s, e, sid)
    ensures !Writes(s, e, sid)
  {}

  lemma HeartbeatLooks(s: State, sid: Sid)
    requires sid !in s.reconciling
    ensures Step(s, Heartbeat([Entry(sid, Active)]))
         == s.(reconciling := s.reconciling + {sid}, tasks := s.tasks[s.nextTask := Looking(sid)],
               nextTask := s.nextTask + 1)
  {
    var one := [Entry(sid, Active)];
    var d := Dispatch(s.stopping, s.reconciling, []);
    assert one[..0] == [];
    assert DispatchAll(s.active, d, one) == DispatchOne(s.active, d, one[0]);
    assert [Looking(sid)][..0] == [];
    assert Spawn(s.tasks, s.nextTask, [Looking(sid)]) == s.tasks[s.nextTask := Looking(sid)];
  }

  /** The state after a reconcile's look at Docker, nothing else happening meanwhile. */
  function Looked(s: State, t: TaskId): State {
    Step(Step(s, Lists(t, true)), Reloads(t, true))
  }

  lemma LookFinds(s: State, t: TaskId, sid: Sid)
    requires t in s.tasks && s.tasks[t] == Looking(sid)
    ensures var name := ContainerName(sid);
      Looked(s, t) == Put(s, t, if RunningUnder(s.docker, name) then Found(sid, s.docker[name].id) else Missing(sid))
  {
    hide ContainerName, Contains, DispatchAll, Spawn;
    var name := ContainerName(sid);
    var listed := Step(s, Lists(t, true));
    assert listed == Put(s, t, Reloading(sid, if name in s.docker then Some(s.docker[name].id) else None));
  }

  /** One undisturbed reconcile, as after a restart: the session is in the map afterwards
      exactly when Docker runs its container, and no other session is touched. */
  lemma ReconcileAgrees(s: State, sid: Sid)
    requires sid !in s.reconciling
    ensures var t := s.nextTask;
      var done := Step(Looked(Step(s, Heartbeat([Entry(sid, Active)])), t), Applies(t));
      && (sid in done.active <==> RunningUnder(s.docker, ContainerName(sid)))
      && (sid in done.active ==> done.active[sid] == s.docker[ContainerName(sid)].id)
      && done.active - {sid} == s.active - {sid} && done.docker == s.docker
  {
    hide Step, ContainerName, Contains, Matches, DispatchAll, Spawn, Looked;
    var begun := Step(s, Heartbeat([Entry(sid, Active)]));
    HeartbeatLooks(s, sid);
    LookFinds(begun, s.nextTask, sid);
    FindingApplies(Looked(begun, s.nextTask), s.nextTask);
    hide RunningUnder;
  }

  lemma FindingApplies(s: State, t: TaskId)
    requires t in s.tasks && (s.tasks[t].Found? || s.tasks[t].Missing?)
    ensures var done, sid := Step(s, Applies(t)), s.tasks[t].sid;
      done.docker == s.docker
      && done.active == if s.tasks[t].Found? then s.active[sid := s.tasks[t].cid] else s.active - {sid}
  {
    hide ContainerName, Contains, DispatchAll, Spawn;
  }
}
