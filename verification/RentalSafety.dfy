/** What every interleaving of heartbeats, tasks, Docker failures and restarts keeps. */
module RentalSafety {
  import opened Text
  import opened Rental

  // ---- the guard sets -----------------------------------------------------------

  /** `guard` is exactly the set of ids with a task of the given kind, one task per id. */
  ghost predicate Guard(tasks: map<TaskId, Task>, guard: set<Sid>, kind: Task -> bool) {
    && (forall t :: t in tasks && kind(tasks[t]) ==> tasks[t].sid in guard)
    && (forall x :: x in guard ==> exists t :: t in tasks && kind(tasks[t]) && tasks[t].sid == x)
    && (forall t, u :: t in tasks && u in tasks && kind(tasks[t]) && kind(tasks[u]) && tasks[t].sid == tasks[u].sid ==>
          t == u)
  }

  function Tearing(): Task -> bool {
    (t: Task) => t.Tearing()
  }

  function Reconciling(): Task -> bool {
    (t: Task) => t.Reconciles()
  }

  ghost predicate Guarded(s: State) {
    && Guard(s.tasks, s.stopping, Tearing())
    && Guard(s.tasks, s.reconciling, Reconciling())
    && forall t :: t in s.tasks ==> t < s.nextTask
  }

  /** A task moves on and keeps its kind. */
  lemma GuardPutSame(tasks: map<TaskId, Task>, guard: set<Sid>, kind: Task -> bool, t: TaskId, task: Task)
    requires Guard(tasks, guard, kind) && t in tasks && kind(task) == kind(tasks[t]) && task.sid == tasks[t].sid
    ensures Guard(tasks[t := task], guard, kind)
  {
    var after := tasks[t := task];
    forall x | x in guard ensures exists u :: u in after && kind(after[u]) && after[u].sid == x {
      var u :| u in tasks && kind(tasks[u]) && tasks[u].sid == x;
      assert u in after;
    }
  }

  /** A task leaves its kind, or ends, and gives up its guard. */
  lemma GuardLeave(tasks: map<TaskId, Task>, after: map<TaskId, Task>, guard: set<Sid>, kind: Task -> bool, t: TaskId)
    requires Guard(tasks, guard, kind) && t in tasks && kind(tasks[t])
    requires after == tasks - {t} || (t in after && !kind(after[t]) && after == tasks[t := after[t]])
    ensures Guard(after, guard - {tasks[t].sid}, kind)
  {
    forall x | x in guard && x != tasks[t].sid ensures exists u :: u in after && kind(after[u]) && after[u].sid == x {
      var u :| u in tasks && kind(tasks[u]) && tasks[u].sid == x;
      assert u in after;
    }
  }

  lemma GuardEndOther(tasks: map<TaskId, Task>, guard: set<Sid>, kind: Task -> bool, t: TaskId)
    requires Guard(tasks, guard, kind) && t in tasks && !kind(tasks[t])
    ensures Guard(tasks - {t}, guard, kind)
  {
    var after := tasks - {t};
    forall x | x in guard ensures exists u :: u in after && kind(after[u]) && after[u].sid == x {
      var u :| u in tasks && kind(tasks[u]) && tasks[u].sid == x;
      assert u in after;
    }
  }

  /** A new task takes its guard, which nobody held. */
  lemma GuardNew(tasks: map<TaskId, Task>, guard: set<Sid>, kind: Task -> bool, t: TaskId, task: Task)
    requires Guard(tasks, guard, kind) && t !in tasks && (kind(task) ==> task.sid !in guard)
    ensures Guard(tasks[t := task], if kind(task) then guard + {task.sid} else guard, kind)
  {
    var after := tasks[t := task];
    forall x | x in guard ensures exists u :: u in after && kind(after[u]) && after[u].sid == x {
      var u :| u in tasks && kind(tasks[u]) && tasks[u].sid == x;
      assert u in after;
    }
    assert t in after;
  }

  lemma {:induction false} SpawnIds(tasks: map<TaskId, Task>, next: TaskId, spawned: seq<Task>)
    requires forall t :: t in tasks ==> t < next
    ensures forall t :: t in Spawn(tasks, next, spawned) ==> t < next + |spawned|
  {
    if spawned != [] {
      SpawnIds(tasks, next, spawned[..|spawned| - 1]);
    }
  }

  lemma {:induction false} SpawnExactly(tasks: map<TaskId, Task>, next: TaskId, spawned: seq<Task>)
    requires forall t :: t in tasks ==> t < next
    ensures var after := Spawn(tasks, next, spawned);
      && (forall t :: t in after <==> t in tasks || next <= t < next + |spawned|)
      && (forall t :: t in tasks ==> after[t] == tasks[t])
      && (forall i :: 0 <= i < |spawned| ==> after[next + i] == spawned[i])
  {
    if spawned != [] {
      SpawnExactly(tasks, next, spawned[..|spawned| - 1]);
    }
  }

  /** A heartbeat takes the guard of every id to stop and of every active one, and begins, in
      the order of its entries, one teardown and one reconcile for each that was free and every
      start of a session that is not active. It changes nothing else. */
  lemma HeartbeatExactly(s: State, entries: seq<Entry>) returns (spawned: seq<Task>)
    requires forall t :: t in s.tasks ==> t < s.nextTask
    ensures Answers(spawned, entries, s.active, s.stopping, s.reconciling)
    ensures var s' := Step(s, Heartbeat(entries));
      && s'.stopping == s.stopping + IdsOf(entries, Stopping)
      && s'.reconciling == s.reconciling + IdsOf(entries, Active)
      && s'.nextTask == s.nextTask + |spawned|
      && (forall t :: t in s'.tasks <==> t in s.tasks || s.nextTask <= t < s'.nextTask)
      && (forall t :: t in s.tasks ==> s'.tasks[t] == s.tasks[t])
      && (forall i :: 0 <= i < |spawned| ==> s'.tasks[s.nextTask + i] == spawned[i])
      && s' == s.(stopping := s'.stopping, reconciling := s'.reconciling, tasks := s'.tasks, nextTask := s'.nextTask)
  {
    DispatchExactly(s.active, s.stopping, s.reconciling, entries);
    spawned := DispatchAll(s.active, Dispatch(s.stopping, s.reconciling, []), entries).spawned;
    SpawnExactly(s.tasks, s.nextTask, spawned);
    hide DispatchAll, Spawn, Answers, IdsOf;
  }

  /** A restart forgets everything the agent knew, and touches neither Docker nor what was
      posted. */
  lemma RestartForgets(s: State)
    ensures var s' := Step(s, AgentRestarts);
      && s'.active == map[] && s'.stopping == {} && s'.reconciling == {} && s'.tasks == map[]
      && s' == s.(active := map[], stopping := {}, reconciling := {}, tasks := map[])
  {}

  /** A container that exits keeps its name and runs no more, one that vanishes frees its name,
      and no other container changes. */
  lemma ContainersComeAndGo(s: State, name: string)
    ensures var exited := Step(s, ContainerExits(name));
      && exited == s.(docker := exited.docker) && exited.docker.Keys == s.docker.Keys
      && forall n :: n in s.docker ==>
           exited.docker[n] == if n == name then Container(s.docker[n].id, false) else s.docker[n]
    ensures var gone := Step(s, ContainerVanishes(name));
      gone == s.(docker := gone.docker) && gone.docker == s.docker - {name}
  {}

  /** What a teardown makes of one container it lists, if that still has the name: removed, it is
      gone, and when only the stop went through it stands there, stopped. Each is tried once. */
  lemma RemovesExactly(s: State, t: TaskId, name: string, removal: RemoveOutcome)
    requires t in s.tasks && s.tasks[t].StopRemoving? && name in s.tasks[t].todo
    ensures var after := Step(s, StopRemoves(t, name, removal)).docker;
      var meant := name in s.docker && s.docker[name].id == s.tasks[t].todo[name];
      && (forall n :: n in after <==> n in s.docker && !(n == name && meant && removal == Removed))
      && (forall n :: n in after ==>
            after[n] == if n == name && meant && removal == StoppedOnly then Container(s.docker[n].id, false)
                        else s.docker[n])
    ensures var after := Step(s, StopRemoves(t, name, removal));
      after == s.(docker := after.docker, tasks := s.tasks[t := s.tasks[t].(todo := s.tasks[t].todo - {name})])
  {}

  /** A teardown that cannot list the containers removes none and still reports the session
      stopped; one that can does not finish before it has tried them all. */
  lemma TeardownGoesOn(s: State, t: TaskId, sid: Sid, todo: map<string, ContainerId>)
    requires t in s.tasks
    ensures s.tasks[t] == StopListing(sid) ==>
      Step(Step(s, StopLists(t, false)), StopPosted(t))
      == s.(active := s.active - {sid}, stopping := s.stopping - {sid}, tasks := s.tasks - {t},
            posts := s.posts + [Stopped(sid)])
    ensures s.tasks[t] == StopRemoving(sid, todo) && todo != map[] ==> Step(s, StopFinishes(t)) == s
  {
    hide ContainerName, Matches;
    assert s.tasks[t := StopPosting(sid)] - {t} == s.tasks - {t};
  }

  /** A reconcile's look at Docker finds the container of its session's exact name, if there is
      one; if Docker fails, the reconcile ends, its session free for the next heartbeat. */
  lemma LookFindsExactName(s: State, t: TaskId, sid: Sid)
    requires t in s.tasks && s.tasks[t] == Looking(sid)
    ensures Step(s, Lists(t, false)) == s.(reconciling := s.reconciling - {sid}, tasks := s.tasks - {t})
    ensures var name := ContainerName(sid);
      Step(s, Lists(t, true))
      == s.(tasks := s.tasks[t := Reloading(sid, if name in s.docker then Some(s.docker[name].id) else None)])
  {
    hide ContainerName;
  }

  /** What a reconcile makes of the container it listed under the session's name: running, if
      that very container still is; missing, if it has stopped or none was listed; and where it
      is gone or Docker fails, the reconcile ends and preserves what is known. */
  lemma ReloadDecides(s: State, t: TaskId, sid: Sid, found: Option<ContainerId>, reloaded: bool)
    requires t in s.tasks && s.tasks[t] == Reloading(sid, found)
    ensures var s' := Step(s, Reloads(t, reloaded)); var name := ContainerName(sid);
      var there := found.Some? && reloaded && name in s.docker && s.docker[name].id == found.value;
      && s'.active == s.active && s'.docker == s.docker && s'.posts == s.posts
      && (if found == None then t in s'.tasks && s'.tasks[t] == Missing(sid)
          else if there then t in s'.tasks
            && s'.tasks[t] == if s.docker[name].running then Found(sid, found.value) else Missing(sid)
          else t !in s'.tasks && s'.reconciling == s.reconciling - {sid})
  {
    hide ContainerName;
  }

  /** One entry of a heartbeat: at most one task, under a guard nobody held. */
  lemma DispatchOneGuarded(active: map<Sid, ContainerId>, d: Dispatch, e: Entry, tasks: map<TaskId, Task>, t: TaskId)
    requires Guard(tasks, d.stopping, Tearing()) && Guard(tasks, d.reconciling, Reconciling()) && t !in tasks
    ensures var d' := DispatchOne(active, d, e);
      d' == d
      || (|d'.spawned| == |d.spawned| + 1 && d'.spawned[..|d.spawned|] == d.spawned
          && Guard(tasks[t := d'.spawned[|d.spawned|]], d'.stopping, Tearing())
          && Guard(tasks[t := d'.spawned[|d.spawned|]], d'.reconciling, Reconciling()))
  {
    hide Guard;
    var d' := DispatchOne(active, d, e);
    if d' != d {
      var task := d'.spawned[|d.spawned|];
      GuardNew(tasks, d.stopping, Tearing(), t, task);
      GuardNew(tasks, d.reconciling, Reconciling(), t, task);
    }
  }

  /** The guards as one heartbeat takes them, entry by entry. */
  lemma {:induction false} DispatchGuarded(s: State, entries: seq<Entry>)
    requires Guarded(s)
    ensures var d := DispatchAll(s.active, Dispatch(s.stopping, s.reconciling, []), entries);
      var tasks := Spawn(s.tasks, s.nextTask, d.spawned);
      Guard(tasks, d.stopping, Tearing()) && Guard(tasks, d.reconciling, Reconciling())
  {
    hide Guard, DispatchOne, Tearing, Reconciling;
    if entries != [] {
      var n := |entries| - 1;
      DispatchGuarded(s, entries[..n]);
      var d := DispatchAll(s.active, Dispatch(s.stopping, s.reconciling, []), entries[..n]);
      SpawnIds(s.tasks, s.nextTask, d.spawned);
      DispatchOneGuarded(s.active, d, entries[n], Spawn(s.tasks, s.nextTask, d.spawned), s.nextTask + |d.spawned|);
    }
  }

  /** What a task step may do to its own task and the guard sets. */
  ghost predicate Moves(s: State, s': State, t: TaskId) {
    && t in s.tasks && s'.nextTask == s.nextTask
    && (s'.tasks == s.tasks - {t}
        || (t in s'.tasks && s'.tasks == s.tasks[t := s'.tasks[t]] && s'.tasks[t].sid == s.tasks[t].sid))
    && (var sid := s.tasks[t].sid;
        && s'.stopping == (if s.tasks[t].Tearing() && !(t in s'.tasks && s'.tasks[t].Tearing())
                           then s.stopping - {sid} else s.stopping)
        && s'.reconciling == (if s.tasks[t].Reconciles() && !(t in s'.tasks && s'.tasks[t].Reconciles())
                              then s.reconciling - {sid} else s.reconciling)
        && (t in s'.tasks ==> s'.tasks[t].Tearing() ==> s.tasks[t].Tearing())
        && (t in s'.tasks ==> s'.tasks[t].Reconciles() ==> s.tasks[t].Reconciles()))
  }

  lemma TaskStepMoves(s: State, e: Event, t: TaskId)
    requires t in s.tasks
    ensures Moves(s, TaskStep(s, e, t, s.tasks[t]), t)
  {
    assert s.tasks[t := s.tasks[t]] == s.tasks;
    hide Moves, TaskStep;
    if s.tasks[t].Tearing() || s.tasks[t].StopPosting? {
      StopStepMoves(s, e, t);
    } else if s.tasks[t].Reconciles() {
      ReconcileStepMoves(s, e, t);
    } else {
      StartStepMoves(s, e, t);
    }
  }

  lemma StopStepMoves(s: State, e: Event, t: TaskId)
    requires t in s.tasks && (s.tasks[t].StopListing? || s.tasks[t].StopRemoving? || s.tasks[t].StopPosting?)
    requires s.tasks[t := s.tasks[t]] == s.tasks
    ensures Moves(s, TaskStep(s, e, t, s.tasks[t]), t)
  {
    hide Contains, ContainerName;
  }

  lemma ReconcileStepMoves(s: State, e: Event, t: TaskId)
    requires t in s.tasks && s.tasks[t].Reconciles()
    requires s.tasks[t := s.tasks[t]] == s.tasks
    ensures Moves(s, TaskStep(s, e, t, s.tasks[t]), t)
  {
    hide Contains, ContainerName;
  }

  lemma StartStepMoves(s: State, e: Event, t: TaskId)
    requires t in s.tasks && (s.tasks[t].Creating? || s.tasks[t].Won())
    requires s.tasks[t := s.tasks[t]] == s.tasks
    ensures Moves(s, TaskStep(s, e, t, s.tasks[t]), t)
  {
    hide Contains, ContainerName;
  }

  lemma MoveKeepsGuard(tasks: map<TaskId, Task>, after: map<TaskId, Task>, guard: set<Sid>, kind: Task -> bool,
                       t: TaskId)
    requires Guard(tasks, guard, kind) && t in tasks
    requires after == tasks - {t} || (t in after && after == tasks[t := after[t]] && after[t].sid == tasks[t].sid)
    requires t in after && kind(after[t]) ==> kind(tasks[t])
    ensures var leaves := kind(tasks[t]) && !(t in after && kind(after[t]));
      Guard(after, if leaves then guard - {tasks[t].sid} else guard, kind)
  {
    hide Guard;
    if kind(tasks[t]) && !(t in after && kind(after[t])) {
      GuardLeave(tasks, after, guard, kind, t);
    } else if t in after {
      GuardPutSame(tasks, guard, kind, t, after[t]);
    } else {
      GuardEndOther(tasks, guard, kind, t);
    }
  }

  lemma StepGuarded(s: State, e: Event)
    requires Guarded(s)
    ensures Guarded(Step(s, e))
  {
    hide Guard, Contains, ContainerName;
    if e.Heartbeat? {
      DispatchGuarded(s, e.entries);
      SpawnIds(s.tasks, s.nextTask, DispatchAll(s.active, Dispatch(s.stopping, s.reconciling, []), e.entries).spawned);
    } else if e.AgentRestarts? {
      assert Guard(map[], {}, Tearing()) && Guard(map[], {}, Reconciling()) by { NothingGuarded(); }
    } else if OfTask(e) && e.task in s.tasks {
      var t := e.task;
      var s' := TaskStep(s, e, t, s.tasks[t]);
      TaskStepMoves(s, e, t);
      hide TaskStep;
      MoveKeepsGuard(s.tasks, s'.tasks, s.stopping, Tearing(), t);
      MoveKeepsGuard(s.tasks, s'.tasks, s.reconciling, Reconciling(), t);
    }
  }

  lemma NothingGuarded()
    ensures Guard(map[], {}, Tearing()) && Guard(map[], {}, Reconciling())
  {}

  /** Over every run the guard sets mean what their comments say. */
  lemma {:induction false} RunGuarded(s: State, es: seq<Event>)
    requires Guarded(s)
    ensures Guarded(Run(s, es))
  {
    hide Guarded, Step;
    if es != [] {
      RunGuarded(s, es[..|es| - 1]);
      StepGuarded(Run(s, es[..|es| - 1]), es[|es| - 1]);
    }
  }
}
