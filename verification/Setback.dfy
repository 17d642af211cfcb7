/** The vacancy setback: the thermostat's setpoint is saved before it is lowered and restored
    when the room opens again. Each event is one effect, so an agent restart can come between
    any two of them; the thermostat and the state file survive it. */
module Setback {
  import opened Text

  datatype Stage =
    | Idle
    | Reading(target: real)                        // asking for the current setpoint
    | Lowering(target: real)                       // setback write in flight
    | Restoring(saved: real)                       // restoring write in flight

  datatype State = State(
    flag: bool,                   // _heat_override_active
    saved: Option<real>,          // in memory
    disk: Option<real>,           // in the state file
    thermostat: real,
    stage: Stage,
    chosen: real)                 // history: what the occupants last chose

  datatype Event =
    | Heartbeat(vacant: bool, target: real)
    | ReadReturns(readOk: bool, saveOk: bool)
    | DeviceSets
    | WriteReturns(saveOk: bool)
    | Restart
    | OccupantSets(temp: real)

  function HeartbeatStep(s: State, vacant: bool, target: real): State {
    if s.stage != Idle || vacant == s.flag then s
    else if vacant then s.(flag := true, stage := if s.saved == None then Reading(target) else Lowering(target))
    else s.(flag := false, stage := if s.saved.Some? then Restoring(s.saved.value) else Idle)
  }

  function Step(s: State, e: Event): State {
    match (e, s.stage)
    case (Heartbeat(vacant, target), _) => HeartbeatStep(s, vacant, target)
    case (ReadReturns(readOk, saveOk), Reading(target)) =>
      if !readOk then s.(stage := Lowering(target))
      else s.(saved := Some(s.thermostat), disk := if saveOk then Some(s.thermostat) else s.disk,
              stage := Lowering(target))
    case (DeviceSets, Lowering(target)) => s.(thermostat := target)
    case (DeviceSets, Restoring(saved)) => s.(thermostat := saved)
    case (WriteReturns(_), Lowering(_)) => s.(stage := Idle)
    case (WriteReturns(saveOk), Restoring(_)) =>
      s.(saved := None, disk := if saveOk then None else s.disk, stage := Idle)
    case (Restart, _) => s.(flag := false, saved := s.disk, stage := Idle)
    case (OccupantSets(temp), _) => s.(thermostat := temp, chosen := temp)
    case _ => s
  }

  function Run(s: State, es: seq<Event>): State {
    if es == [] then s else Step(Run(s, es[..|es| - 1]), es[|es| - 1])
  }

  /** One undisturbed call of `_apply_heat_override`. */
  function Call(vacant: bool, target: real, readOk: bool, saveOk: bool, lands: bool): seq<Event> {
    [Heartbeat(vacant, target), ReadReturns(readOk, saveOk)] + (if lands then [DeviceSets] else [])
    + [WriteReturns(saveOk)]
  }

  lemma RunMore(s: State, es: seq<Event>, e: Event)
    ensures Run(s, es + [e]) == Step(Run(s, es), e)
  {
    hide Step;
    assert (es + [e])[..|es|] == es;
  }

  lemma RunTwo(s: State, a: Event, b: Event)
    ensures Run(s, [a, b]) == Step(Step(s, a), b)
  {
    hide Step;
    RunMore(s, [], a);
    RunMore(s, [a], b);
    assert [] + [a] == [a] && [a] + [b] == [a, b];
  }

  lemma CallRuns(s: State, vacant: bool, target: real, readOk: bool, saveOk: bool, lands: bool)
    ensures var s1 := Step(Step(s, Heartbeat(vacant, target)), ReadReturns(readOk, saveOk));
      var s2 := if lands then Step(s1, DeviceSets) else s1;
      Run(s, Call(vacant, target, readOk, saveOk, lands)) == Step(s2, WriteReturns(saveOk))
  {
    hide Step, Run;
    var start := [Heartbeat(vacant, target), ReadReturns(readOk, saveOk)];
    RunTwo(s, start[0], start[1]);
    if lands {
      RunMore(s, start, DeviceSets);
      RunMore(s, start + [DeviceSets], WriteReturns(saveOk));
    } else {
      RunMore(s, start, WriteReturns(saveOk));
      assert start + [] == start;
    }
  }

  class HeatOverride {
    var active: bool
    var savedSetpoint: Option<real>
    var stateFile: Option<real>
    var thermostat: real
    ghost var chosen: real

    ghost function Contents(): State
      reads this
    {
      State(active, savedSetpoint, stateFile, thermostat, Idle, chosen)
    }

    /** `_apply_heat_override` where no restart interrupts it. */
    method Apply(vacant: bool, target: real, readOk: bool, saveOk: bool, lands: bool)
      modifies this
      ensures Contents() == Run(old(Contents()), Call(vacant, target, readOk, saveOk, lands))
    {
      CallRuns(Contents(), vacant, target, readOk, saveOk, lands);
      hide Run, Call;
      if vacant == active {
        return;
      }
      active := vacant;
      if vacant {
        if savedSetpoint == None && readOk {
          savedSetpoint := Some(thermostat);
          if saveOk {
            stateFile := savedSetpoint;
          }
        }
        if lands {
          thermostat := target;
        }
      } else if savedSetpoint.Some? {
        if lands {
          thermostat := savedSetpoint.value;
        }
        savedSetpoint := None;
        if saveOk {
          stateFile := None;
        }
      }
    }
  }

  // ---- what every orderly run keeps ----------------------------------------------------------

  /** No vacancy is being handled or remembered. */
  predicate Open(s: State) {
    !s.flag && s.saved == None && s.disk == None && s.stage == Idle
  }

  /** The read and the save of a setpoint succeed, a restoring write returns only once the
      thermostat shows the saved value, and the occupants leave the thermostat alone while a
      setpoint is saved. */
  predicate Orderly(s: State, e: Event) {
    match e
    case ReadReturns(readOk, saveOk) => s.stage.Reading? ==> readOk && saveOk
    case WriteReturns(saveOk) => s.stage.Restoring? ==> saveOk && s.thermostat == s.stage.saved
    case OccupantSets(temp) => s.disk.Some? ==> temp == s.disk.value
    case _ => true
  }

  predicate OrderlyRun(s: State, es: seq<Event>) {
    es == [] || (OrderlyRun(s, es[..|es| - 1]) && Orderly(Run(s, es[..|es| - 1]), es[|es| - 1]))
  }

  predicate Safe(s: State) {
    && s.saved == s.disk
    && (s.disk.Some? ==> s.disk.value == s.chosen)
    && (s.thermostat != s.chosen ==> s.disk.Some?)
    && (s.stage.Reading? ==> s.disk == None && s.flag)
    && (s.stage.Lowering? ==> s.disk.Some? && s.flag)
    && (s.stage.Restoring? ==> s.disk.Some? && s.stage.saved == s.chosen && !s.flag)
    && (s.flag && s.stage == Idle ==> s.disk.Some?)
  }

  /** An effect keeps the setpoint recoverable exactly if it is orderly. */
  lemma StepSafe(s: State, e: Event)
    requires Safe(s)
    ensures Safe(Step(s, e)) <==> Orderly(s, e)
  {}

  /** Whatever the order of heartbeats, effects and restarts: what is saved is only ever the
      occupants' own setpoint, and it is in the state file whenever the thermostat shows
      anything else. */
  lemma {:induction false} RunSafe(s: State, es: seq<Event>)
    requires Safe(s) && OrderlyRun(s, es)
    ensures Safe(Run(s, es))
  {
    hide Safe, Step, Orderly;
    if es != [] {
      RunSafe(s, es[..|es| - 1]);
      StepSafe(Run(s, es[..|es| - 1]), es[|es| - 1]);
    }
  }

  /** After any orderly run, with the room vacant and nothing in flight: a clear that is then
      processed puts the thermostat back to what the occupants had chosen before. */
  lemma ClearRestores(s: State, es: seq<Event>, target: real, readOk: bool)
    requires Safe(s) && OrderlyRun(s, es) && Run(s, es).flag && Run(s, es).stage == Idle
    ensures var after := Run(Run(s, es), Call(false, target, readOk, true, true));
      after.thermostat == Run(s, es).chosen && Open(after)
  {
    RunSafe(s, es);
    hide OrderlyRun, Run, Call;
    CallRuns(Run(s, es), false, target, readOk, true, true);
  }

  /** A room that becomes vacant: its setpoint is saved, in memory and in the state file,
      before the thermostat goes to the setback temperature. */
  lemma VacancyLowers(s: State, target: real)
    requires Open(s)
    ensures var after := Run(s, Call(true, target, true, true, true));
      after.thermostat == target && after.disk == after.saved == Some(s.thermostat) && after.flag && after.stage == Idle
    ensures Step(Step(s, Heartbeat(true, target)), ReadReturns(true, true)).disk == Some(s.thermostat)
    ensures Step(Step(s, Heartbeat(true, target)), ReadReturns(true, true)).thermostat == s.thermostat
  {
    CallRuns(s, true, target, true, true, true);
    hide Run, Call;
  }

  /** A heartbeat that says what the agent knows already does nothing: nothing is read, written
      or saved, whatever would become of it. */
  lemma RepeatDoesNothing(s: State, target: real, readOk: bool, saveOk: bool, lands: bool)
    requires s.stage == Idle
    ensures Run(s, Call(s.flag, target, readOk, saveOk, lands)) == s
  {
    CallRuns(s, s.flag, target, readOk, saveOk, lands);
    hide Run, Call;
  }

  /** Heartbeats are handled one at a time: one that would come while a call is under way waits. */
  lemma HeartbeatsWait(s: State, vacant: bool, target: real)
    requires s.stage != Idle
    ensures Step(s, Heartbeat(vacant, target)) == s
  {}

  /** A processed clear restores exactly if the agent knows of the vacancy, or there is
      nothing to restore: after a restart the flag starts out cleared and the call does nothing. */
  lemma ClearRestoresExactly(s: State, target: real)
    requires Safe(s) && s.stage == Idle
    ensures var after := Run(s, Call(false, target, true, true, true));
      (after.thermostat == s.chosen && Open(after)) <==> (s.flag || (s.thermostat == s.chosen && Open(s)))
  {
    CallRuns(s, false, target, true, true, true);
    hide Run, Call;
  }

  /** From anywhere an orderly run can leave the agent, one more vacancy that is opened and
      cleared without a restart restores the occupants' setpoint. */
  lemma NextVacancyHeals(s: State, target: real, lands: bool)
    requires Safe(s) && s.stage == Idle
    ensures var vacant := Run(s, Call(true, target, true, true, lands));
      var after := Run(vacant, Call(false, target, true, true, true));
      after.thermostat == s.chosen && Open(after)
  {
    CallRuns(s, true, target, true, true, lands);
    var vacant := Run(s, Call(true, target, true, true, lands));
    CallRuns(vacant, false, target, true, true, true);
    hide Run, Call;
  }

  // ---- why the conditions are needed ------------------------------------------------------------

  const ROOM := State(false, None, None, 21.0, Idle, 21.0)
  const VACATE := Call(true, 16.0, true, true, true)

  lemma OrderlyMore(s: State, es: seq<Event>, e: Event)
    requires OrderlyRun(s, es) && Orderly(Run(s, es), e)
    ensures OrderlyRun(s, es + [e])
  {
    hide Orderly, Run;
    assert (es + [e])[..|es|] == es;
  }

  /** The events of a vacancy that goes well are orderly. */
  lemma VacateOrderly()
    ensures OrderlyRun(ROOM, VACATE)
  {
    var a, b := Heartbeat(true, 16.0), ReadReturns(true, true);
    RunMore(ROOM, [], a);
    RunMore(ROOM, [a], b);
    RunMore(ROOM, [a] + [b], DeviceSets);
    assert [] + [a] == [a] && [a] + [b] + [DeviceSets] + [WriteReturns(true)] == VACATE;
    OrderlyMore(ROOM, [], a);
    OrderlyMore(ROOM, [a], b);
    OrderlyMore(ROOM, [a] + [b], DeviceSets);
    OrderlyMore(ROOM, [a] + [b] + [DeviceSets], WriteReturns(true));
  }

  /** An orderly run, a restart in mid-vacancy and then the clear, that leaves the room cold. */
  lemma RestartStrands()
    ensures var es := VACATE + [Restart] + [Heartbeat(false, 16.0)];
      && Safe(ROOM) && OrderlyRun(ROOM, es)
      && Run(ROOM, es).thermostat == 16.0 && Run(ROOM, es).chosen == 21.0 && Run(ROOM, es).stage == Idle
  {
    VacateOrderly();
    OrderlyMore(ROOM, VACATE, Restart);
    OrderlyMore(ROOM, VACATE + [Restart], Heartbeat(false, 16.0));
    CallRuns(ROOM, true, 16.0, true, true, true);
    RunMore(ROOM, VACATE, Restart);
    RunMore(ROOM, VACATE + [Restart], Heartbeat(false, 16.0));
    hide Run, Call, OrderlyRun;
  }

  /** The first read fails, so nothing is saved; after a restart the setback temperature
      itself is captured as the one to restore. */
  lemma FailedReadLosesSetpoint()
    ensures var es := Call(true, 16.0, false, true, true) + [Restart];
      Run(Run(ROOM, es), VACATE).disk == Some(16.0)
  {
    var first := Call(true, 16.0, false, true, true);
    CallRuns(ROOM, true, 16.0, false, true, true);
    RunMore(ROOM, first, Restart);
    CallRuns(Run(ROOM, first + [Restart]), true, 16.0, true, true, true);
    hide Run, Call;
  }

  /** The same when the setpoint was read but not saved. */
  lemma FailedSaveLosesSetpoint()
    ensures var es := Call(true, 16.0, true, false, true) + [Restart];
      Run(Run(ROOM, es), VACATE).disk == Some(16.0)
  {
    var first := Call(true, 16.0, true, false, true);
    CallRuns(ROOM, true, 16.0, true, false, true);
    RunMore(ROOM, first, Restart);
    CallRuns(Run(ROOM, first + [Restart]), true, 16.0, true, true, true);
    hide Run, Call;
  }

  /** A restoring write that fails still drops the saved setpoint. */
  lemma FailedRestoreForgets()
    ensures var after := Run(Run(ROOM, VACATE), Call(false, 16.0, true, true, false));
      after.thermostat == 16.0 && Open(after)
  {
    CallRuns(ROOM, true, 16.0, true, true, true);
    CallRuns(Run(ROOM, VACATE), false, 16.0, true, true, false);
    hide Run, Call;
  }
}
