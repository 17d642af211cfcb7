/** The rental session handler and Docker. `handle_sessions` runs to its gather in one piece;
    the start, stop and reconcile tasks it spawns then interleave with each other, with later
    heartbeats, with containers dying on their own and with agent restarts. A task's place
    says which of its effects come next; `Step` is one atomic piece of the source per event. */
module Rental {
  import opened Text

  type Sid = string
  type TaskId = nat
  type ContainerId = nat

  datatype Status = Starting | Active | Stopping | Other
  datatype Entry = Entry(sid: Sid, status: Status)

  datatype Task =
    | Creating(sid: Sid)                                // containers.run not back yet
    | Created(sid: Sid, cid: ContainerId)               // awaiting the Tailscale address
    | Activating(sid: Sid, cid: ContainerId)            // activate post in flight
    | StopListing(sid: Sid)                             // teardown not begun
    | StopRemoving(sid: Sid, todo: map<string, ContainerId>)
    | StopPosting(sid: Sid)                             // past its finally
    | Looking(sid: Sid)                                 // reconcile: nothing asked yet
    | Reloading(sid: Sid, found: Option<ContainerId>)   // listed; exact-name match, if any
    | Found(sid: Sid, cid: ContainerId)                 // saw it running
    | Missing(sid: Sid)                                 // saw no running match
    | Losing(sid: Sid)                                  // lost post in flight
  {
    /** A teardown not yet past its `finally`. */
    predicate Tearing() {
      StopListing? || StopRemoving?
    }

    predicate Reconciles() {
      Looking? || Reloading? || Found? || Missing? || Losing?
    }

    /** A start whose container exists because this very task created it. */
    predicate Won() {
      Created? || Activating?
    }
  }

  datatype Container = Container(id: ContainerId, running: bool)

  datatype Maker = Maker(task: TaskId, sid: Sid)

  datatype Post =
    | Activated(starter: TaskId, sid: Sid, cid: ContainerId)
    | Stopped(sid: Sid)
    | Lost(finder: TaskId, sid: Sid)

  datatype State = State(
    active: map<Sid, ContainerId>, stopping: set<Sid>, reconciling: set<Sid>,
    tasks: map<TaskId, Task>, nextTask: TaskId,
    docker: map<string, Container>, nextContainer: ContainerId,
    posts: seq<Post>,
    makers: map<ContainerId, Maker>)      // history: which start's create made a container

  datatype CreateOutcome = Refused | MadeNotStarted | Running
  datatype RemoveOutcome = Failed | StoppedOnly | Removed

  datatype Event =
    | Heartbeat(entries: seq<Entry>)
    | Creates(task: TaskId, outcome: CreateOutcome)
    | Registers(task: TaskId)
    | ActivatePosted(task: TaskId)
    | StopLists(task: TaskId, listed: bool)
    | StopRemoves(task: TaskId, name: string, removal: RemoveOutcome)
    | StopFinishes(task: TaskId)
    | StopPosted(task: TaskId)
    | Lists(task: TaskId, listed: bool)
    | Reloads(task: TaskId, reloaded: bool)
    | Applies(task: TaskId)
    | LostPosted(task: TaskId)
    | ContainerExits(name: string)
    | ContainerVanishes(name: string)
    | AgentRestarts

  /** The part of a session id that names its container. */
  function Prefix(sid: Sid): string {
    if |sid| <= 8 then sid else sid[..8]
  }

  const NAME_PREFIX := "hadcd-session-"

  function ContainerName(sid: Sid): string {
    NAME_PREFIX + Prefix(sid)
  }

  /** `s` begins with `part`, in which a dot stands for any character. */
  predicate Fits(part: string, s: string) {
    |part| <= |s| && forall i :: 0 <= i < |part| ==> part[i] == '.' || part[i] == s[i]
  }

  /** Docker's name filter is a regular expression searched for anywhere in the name. Of the
      characters a container name may have, only the dot is special in it. */
  predicate Contains(s: string, part: string) {
    Fits(part, s) || (s != "" && Contains(s[1..], part))
  }

  /** The containers Docker lists for a name filter. */
  function Matches(docker: map<string, Container>, name: string): map<string, ContainerId> {
    map n | n in docker && Contains(n, name) :: docker[n].id
  }

  predicate RunningUnder(docker: map<string, Container>, name: string) {
    name in docker && docker[name].running
  }

  // ---- the dispatch of one heartbeat ---------------------------------------------

  datatype Dispatch = Dispatch(stopping: set<Sid>, reconciling: set<Sid>, spawned: seq<Task>)

  function DispatchOne(active: map<Sid, ContainerId>, d: Dispatch, e: Entry): Dispatch {
    match e.status
    case Starting => if e.sid in active then d else d.(spawned := d.spawned + [Creating(e.sid)])
    case Active =>
      if e.sid in d.reconciling then d
      else Dispatch(d.stopping, d.reconciling + {e.sid}, d.spawned + [Looking(e.sid)])
    case Stopping =>
      if e.sid in d.stopping then d
      else Dispatch(d.stopping + {e.sid}, d.reconciling, d.spawned + [StopListing(e.sid)])
    case Other => d
  }

  function DispatchAll(active: map<Sid, ContainerId>, d: Dispatch, entries: seq<Entry>): Dispatch {
    if entries == [] then d
    else DispatchOne(active, DispatchAll(active, d, entries[..|entries| - 1]), entries[|entries| - 1])
  }

  // ---- what a heartbeat asks for, entry by entry ---------------------------------------

  function IdsOf(entries: seq<Entry>, status: Status): set<Sid> {
    set e | e in entries && e.status == status :: e.sid
  }

  /** The task begins as the entry asks. */
  predicate Begins(task: Task, e: Entry) {
    match e.status
    case Starting => task == Creating(e.sid)
    case Active => task == Looking(e.sid)
    case Stopping => task == StopListing(e.sid)
    case Other => false
  }

  /** Each task answers an entry of its own, in the order of the entries. */
  ghost predicate InEntryOrder(tasks: seq<Task>, entries: seq<Entry>) {
    exists at: seq<nat> :: OrderedBy(tasks, entries, at)
  }

  predicate OrderedBy(tasks: seq<Task>, entries: seq<Entry>, at: seq<nat>) {
    && |at| == |tasks|
    && (forall k :: 0 <= k < |at| ==> at[k] < |entries| && Begins(tasks[k], entries[at[k]]))
    && (forall k, l :: 0 <= k < l < |at| ==> at[k] < at[l])
  }

  /** One task of each kind for each id that is asked for and not guarded yet, and a start for
      every entry to start whose session is not in the active map. */
  ghost predicate OneEach(tasks: seq<Task>, entries: seq<Entry>, active: map<Sid, ContainerId>, stopping: set<Sid>,
                          reconciling: set<Sid>)
  {
    && (forall x :: multiset(tasks)[StopListing(x)] == if x in IdsOf(entries, Stopping) - stopping then 1 else 0)
    && (forall x :: multiset(tasks)[Looking(x)] == if x in IdsOf(entries, Active) - reconciling then 1 else 0)
    && (forall x :: multiset(tasks)[Creating(x)] == if x in active then 0 else multiset(entries)[Entry(x, Starting)])
  }

  /** The tasks that a heartbeat begins. */
  ghost predicate Answers(tasks: seq<Task>, entries: seq<Entry>, active: map<Sid, ContainerId>, stopping: set<Sid>,
                          reconciling: set<Sid>)
  {
    OneEach(tasks, entries, active, stopping, reconciling) && InEntryOrder(tasks, entries)
  }

  lemma IdsMore(entries: seq<Entry>, e: Entry, status: Status)
    ensures IdsOf(entries + [e], status) == IdsOf(entries, status) + if e.status == status then {e.sid} else {}
  {
    if e.status == status {
      assert e in entries + [e];
    }
  }

  lemma OrderMore(tasks: seq<Task>, entries: seq<Entry>, e: Entry)
    requires InEntryOrder(tasks, entries)
    ensures InEntryOrder(tasks, entries + [e])
    ensures forall task :: Begins(task, e) ==> InEntryOrder(tasks + [task], entries + [e])
  {
    hide Begins;
    var at: seq<nat> :| OrderedBy(tasks, entries, at);
    assert OrderedBy(tasks, entries + [e], at);
    forall task | Begins(task, e) ensures InEntryOrder(tasks + [task], entries + [e]) {
      assert OrderedBy(tasks + [task], entries + [e], at + [|entries|]);
    }
  }

  lemma CountMore<T>(xs: seq<T>, x: T)
    ensures multiset(xs + [x]) == multiset(xs) + multiset{x}
  {}

  /** The guards and tasks after these entries. */
  ghost predicate Dispatched(d: Dispatch, entries: seq<Entry>, active: map<Sid, ContainerId>, stopping: set<Sid>,
                             reconciling: set<Sid>)
  {
    && d.stopping == stopping + IdsOf(entries, Stopping)
    && d.reconciling == reconciling + IdsOf(entries, Active)
    && Answers(d.spawned, entries, active, stopping, reconciling)
  }

  lemma OneMore(tasks: seq<Task>, entries: seq<Entry>, e: Entry, task: Task, active: map<Sid, ContainerId>,
                stopping: set<Sid>, reconciling: set<Sid>)
    requires OneEach(tasks, entries, active, stopping, reconciling)
    requires e.status != Other ==> Begins(task, e)
    ensures var begins := match e.status
                          case Starting => e.sid !in active
                          case Active => e.sid !in reconciling + IdsOf(entries, Active)
                          case Stopping => e.sid !in stopping + IdsOf(entries, Stopping)
                          case Other => false;
      OneEach(if begins then tasks + [task] else tasks, entries + [e], active, stopping, reconciling)
  {
    IdsMore(entries, e, Stopping);
    IdsMore(entries, e, Active);
    CountMore(entries, e);
    CountMore(tasks, task);
    hide IdsOf;
  }

  lemma UnionMore(a: set<Sid>, b: set<Sid>, x: Sid)
    ensures a + b + {x} == a + (b + {x}) && a + b == a + (b + {})
    ensures x in a + b ==> a + (b + {x}) == a + b
  {}

  lemma DispatchOneMore(d: Dispatch, entries: seq<Entry>, e: Entry, active: map<Sid, ContainerId>, stopping: set<Sid>,
                        reconciling: set<Sid>)
    requires Dispatched(d, entries, active, stopping, reconciling)
    ensures Dispatched(DispatchOne(active, d, e), entries + [e], active, stopping, reconciling)
  {
    var task := match e.status
                case Starting => Creating(e.sid)
                case Active => Looking(e.sid)
                case _ => StopListing(e.sid);
    IdsMore(entries, e, Stopping);
    IdsMore(entries, e, Active);
    UnionMore(stopping, IdsOf(entries, Stopping), e.sid);
    UnionMore(reconciling, IdsOf(entries, Active), e.sid);
    OrderMore(d.spawned, entries, e);
    OneMore(d.spawned, entries, e, task, active, stopping, reconciling);
    hide IdsOf, InEntryOrder, OneEach;
  }

  /** The entry-by-entry dispatch takes the guard of every id it is given and begins the tasks
      that are asked for. */
  lemma {:induction false} DispatchExactly(active: map<Sid, ContainerId>, stopping: set<Sid>, reconciling: set<Sid>,
                                           entries: seq<Entry>)
    ensures Dispatched(DispatchAll(active, Dispatch(stopping, reconciling, []), entries), entries,
                       active, stopping, reconciling)
  {
    if entries == [] {
      assert OrderedBy([], [], []);
    } else {
      var n := |entries| - 1;
      assert entries == entries[..n] + [entries[n]];
      DispatchExactly(active, stopping, reconciling, entries[..n]);
      var d := DispatchAll(active, Dispatch(stopping, reconciling, []), entries[..n]);
      hide Dispatched, DispatchOne;
      DispatchOneMore(d, entries[..n], entries[n], active, stopping, reconciling);
    }
  }

  class RentalSessionHandler {
    var active: map<Sid, ContainerId>
    var stopping: set<Sid>
    var reconciling: set<Sid>

    /** `handle_sessions` up to its gather: the guards are taken here, not in the tasks. */
    method HandleSessions(sessions: seq<Entry>) returns (tasks: seq<Task>)
      modifies this`stopping, this`reconciling
      ensures Dispatch(stopping, reconciling, tasks)
           == DispatchAll(active, Dispatch(old(stopping), old(reconciling), []), sessions)
      ensures stopping == old(stopping) + IdsOf(sessions, Stopping)
      ensures reconciling == old(reconciling) + IdsOf(sessions, Active)
      ensures Answers(tasks, sessions, active, old(stopping), old(reconciling))
    {
      DispatchExactly(active, stopping, reconciling, sessions);
      hide IdsOf, Answers;
      tasks := [];
      for i := 0 to |sessions|
        invariant Dispatch(stopping, reconciling, tasks)
               == DispatchAll(active, Dispatch(old(stopping), old(reconciling), []), sessions[..i])
      {
        assert sessions[..i + 1][..i] == sessions[..i];
        var sid, status := sessions[i].sid, sessions[i].status;
        if status == Starting && sid !in active {
          tasks := tasks + [Creating(sid)];
        } else if status == Active && sid !in reconciling {
          reconciling := reconciling + {sid};
          tasks := tasks + [Looking(sid)];
        } else if status == Stopping && sid !in stopping {
          stopping := stopping + {sid};
          tasks := tasks + [StopListing(sid)];
        }
      }
      assert sessions[..|sessions|] == sessions;
    }
  }

  /** The spawned tasks under fresh ids. */
  function Spawn(tasks: map<TaskId, Task>, next: TaskId, spawned: seq<Task>): map<TaskId, Task> {
    if spawned == [] then tasks
    else Spawn(tasks, next, spawned[..|spawned| - 1])[next + |spawned| - 1 := spawned[|spawned| - 1]]
  }

  // ---- atomic pieces of the tasks ---------------------------------------------------

  function End(s: State, t: TaskId): State {
    s.(tasks := s.tasks - {t})
  }

  function Put(s: State, t: TaskId, task: Task): State {
    s.(tasks := s.tasks[t := task])
  }

  /** `containers.run`: Docker refuses a taken name; it can also create and fail to start. */
  function CreateStep(s: State, t: TaskId, sid: Sid, outcome: CreateOutcome): State {
    var name, cid := ContainerName(sid), s.nextContainer;
    if outcome == Refused || name in s.docker then End(s, t) else
      var made := s.(docker := s.docker[name := Container(cid, outcome == Running)],
                     nextContainer := cid + 1, makers := s.makers[cid := Maker(t, sid)]);
      if outcome == Running then Put(made, t, Created(sid, cid)) else End(made, t)
  }

  function RemoveStep(s: State, t: TaskId, name: string, removal: RemoveOutcome): State
    requires t in s.tasks && s.tasks[t].StopRemoving?
  {
    var task := s.tasks[t];
    if name !in task.todo then s else
      var s' := Put(s, t, task.(todo := task.todo - {name}));
      if removal == Failed || name !in s.docker || s.docker[name].id != task.todo[name] then s'
      else if removal == Removed then s'.(docker := s.docker - {name})
      else s'.(docker := s.docker[name := s.docker[name].(running := false)])
  }

  /** After the look at Docker: the container by that id, still there and running? */
  function ReloadStep(s: State, t: TaskId, sid: Sid, found: Option<ContainerId>, reloaded: bool): State {
    var name := ContainerName(sid);
    match found
    case None => Put(s, t, Missing(sid))
    case Some(cid) =>
      if !reloaded || name !in s.docker || s.docker[name].id != cid
      then End(s.(reconciling := s.reconciling - {sid}), t)     // NotFound and API errors: preserve
      else Put(s, t, if s.docker[name].running then Found(sid, cid) else Missing(sid))
  }

  function TaskStep(s: State, e: Event, t: TaskId, task: Task): State
    requires t in s.tasks && s.tasks[t] == task
  {
    match (e, task)
    case (Creates(_, outcome), Creating(sid)) => CreateStep(s, t, sid, outcome)
    case (Registers(_), Created(sid, cid)) => Put(s.(active := s.active[sid := cid]), t, Activating(sid, cid))
    case (ActivatePosted(_), Activating(sid, cid)) => End(s.(posts := s.posts + [Activated(t, sid, cid)]), t)
    case (StopLists(_, listed), StopListing(sid)) =>
      var s' := s.(active := s.active - {sid});
      if listed
      then Put(s', t, StopRemoving(sid, Matches(s.docker, ContainerName(sid))))
      else Put(s'.(stopping := s.stopping - {sid}), t, StopPosting(sid))
    case (StopRemoves(_, name, removal), StopRemoving(_, _)) => RemoveStep(s, t, name, removal)
    case (StopFinishes(_), StopRemoving(sid, todo)) =>
      if todo != map[] then s else Put(s.(stopping := s.stopping - {sid}), t, StopPosting(sid))
    case (StopPosted(_), StopPosting(sid)) => End(s.(posts := s.posts + [Stopped(sid)]), t)
    case (Lists(_, listed), Looking(sid)) =>
      var name := ContainerName(sid);
      if listed then Put(s, t, Reloading(sid, if name in s.docker then Some(s.docker[name].id) else None))
      else End(s.(reconciling := s.reconciling - {sid}), t)
    case (Reloads(_, reloaded), Reloading(sid, found)) => ReloadStep(s, t, sid, found, reloaded)
    case (Applies(_), Found(sid, cid)) =>
      End(s.(active := s.active[sid := cid], reconciling := s.reconciling - {sid}), t)
    case (Applies(_), Missing(sid)) => Put(s.(active := s.active - {sid}), t, Losing(sid))
    case (LostPosted(_), Losing(sid)) =>
      End(s.(posts := s.posts + [Lost(t, sid)], reconciling := s.reconciling - {sid}), t)
    case _ => s
  }

  function WorldStep(s: State, e: Event): State {
    match e
    case Heartbeat(entries) =>
      var d := DispatchAll(s.active, Dispatch(s.stopping, s.reconciling, []), entries);
      s.(stopping := d.stopping, reconciling := d.reconciling,
         tasks := Spawn(s.tasks, s.nextTask, d.spawned), nextTask := s.nextTask + |d.spawned|)
    case ContainerExits(name) =>
      if name in s.docker then s.(docker := s.docker[name := s.docker[name].(running := false)]) else s
    case ContainerVanishes(name) => s.(docker := s.docker - {name})
    case AgentRestarts => s.(active := map[], stopping := {}, reconciling := {}, tasks := map[])
    case _ => s
  }

  predicate OfTask(e: Event) {
    !e.Heartbeat? && !e.ContainerExits? && !e.ContainerVanishes? && !e.AgentRestarts?
  }

  function Step(s: State, e: Event): State {
    if !OfTask(e) then WorldStep(s, e)
    else if e.task in s.tasks then TaskStep(s, e, e.task, s.tasks[e.task])
    else s
  }

  function Run(s: State, es: seq<Event>): State {
    if es == [] then s else Step(Run(s, es[..|es| - 1]), es[|es| - 1])
  }
}
