/** Pausing the GPU miner while something else computes on the GPU, and the time accounting.
    Times are readings of one clock. */
module GpuPause {
  import opened Text
  import opened Toggle

  /** One round: the clock at the loop head, the clock when the sleep is measured out, the
      clock at the suspend or resume, what was seen, whether a suspend or resume it makes
      succeeds, and whether the miner had exited. */
  datatype Round = Round(head: int, sleeping: int, acting: int, pressure: bool, acts: bool, exited: bool)

  datatype Op = Op(suspend: bool, at: int)

  /** Why the loop is left. A negative sleep raises: the poll interval is negative, or the
      deadline passed since the loop head. So does acting on a process that has just died. */
  datatype Exit = TimeUp | MinerExited | SleepRaised | ActRaised

  function Pressures(rounds: seq<Round>): seq<Option<bool>> {
    if rounds == [] then [] else Pressures(rounds[..|rounds| - 1]) + [Some(rounds[|rounds| - 1].pressure)]
  }

  /** The suspends and resumes of these rounds, with their times. */
  function Ops(rounds: seq<Round>): seq<Op> {
    if rounds == [] then []
    else
      var n := |rounds| - 1;
      var r := rounds[n];
      Ops(rounds[..n]) + if r.pressure != Level(Pressures(rounds[..n])) then [Op(r.pressure, r.acting)] else []
  }

  /** The time between each resume and the suspend before it. */
  function Closed(ops: seq<Op>): int {
    if ops == [] then 0
    else
      var n := |ops| - 1;
      Closed(ops[..n]) + if !ops[n].suspend && n > 0 then ops[n].at - ops[n - 1].at else 0
  }

  /** How long the miner really stood still up to `end`. */
  function StoodStill(ops: seq<Op>, end: int): int {
    Closed(ops) + if ops != [] && ops[|ops| - 1].suspend then end - ops[|ops| - 1].at else 0
  }

  function Change(r: Round, paused: bool): seq<Op> {
    if r.pressure != paused then [Op(r.pressure, r.acting)] else []
  }

  lemma OpsMore(rounds: seq<Round>, r: Round)
    ensures Ops(rounds + [r]) == Ops(rounds) + Change(r, Level(Pressures(rounds)))
    ensures Level(Pressures(rounds + [r])) == r.pressure
  {
    assert (rounds + [r])[..|rounds|] == rounds;
    OneMore(Pressures(rounds), Some(r.pressure));
  }

  lemma ClosedMore(ops: seq<Op>, x: Op)
    ensures Closed(ops + [x]) == Closed(ops) + if !x.suspend && ops != [] then x.at - ops[|ops| - 1].at else 0
  {
    assert (ops + [x])[..|ops|] == ops;
  }

  predicate OfKinds(ops: seq<Op>, kinds: seq<bool>) {
    |ops| == |kinds| && forall k :: 0 <= k < |ops| ==> ops[k].suspend == kinds[k]
  }

  lemma {:induction false} OpsAreEdges(rounds: seq<Round>)
    ensures OfKinds(Ops(rounds), Edges(Pressures(rounds)))
  {
    if rounds != [] {
      var n := |rounds| - 1;
      OpsAreEdges(rounds[..n]);
      assert rounds == rounds[..n] + [rounds[n]];
      OpsMore(rounds[..n], rounds[n]);
      OneMore(Pressures(rounds[..n]), Some(rounds[n].pressure));
      assert Pressures(rounds) == Pressures(rounds[..n]) + [Some(rounds[n].pressure)];
      hide Ops, Edges, Pressures, Level;
    }
  }

  /** Over a whole run suspends and resumes alternate, starting with a suspend, and the miner
      is suspended at the end exactly if their number is odd. */
  lemma OpsAlternate(rounds: seq<Round>)
    ensures forall k :: 0 <= k < |Ops(rounds)| ==> Ops(rounds)[k].suspend == (k % 2 == 0)
    ensures Level(Pressures(rounds)) == (|Ops(rounds)| % 2 == 1)
  {
    OpsAreEdges(rounds);
    EdgesAlternate(Pressures(rounds));
  }

  lemma NothingYet()
    ensures Ops([]) == [] && Closed([]) == 0 && !Level(Pressures([]))
  {}

  /** Why round `i` does not run to its end, if so. */
  function Breaks(rounds: seq<Round>, deadline: int, poll: int, i: nat): Option<Exit>
    requires i < |rounds|
  {
    var r := rounds[i];
    if r.head >= deadline then Some(TimeUp)
    else if poll < 0 || deadline - r.sleeping < 0 then Some(SleepRaised)
    else if r.pressure != Level(Pressures(rounds[..i])) && !r.acts then Some(ActRaised)
    else None
  }

  /** How many rounds run to their end, of which the first `i` do. */
  function Done(rounds: seq<Round>, deadline: int, poll: int, i: nat): (n: nat)
    requires i <= |rounds|
    ensures i <= n <= |rounds|
    decreases |rounds| - i
  {
    if i == |rounds| || Breaks(rounds, deadline, poll, i).Some? then i
    else if rounds[i].exited then i + 1
    else Done(rounds, deadline, poll, i + 1)
  }

  /** What the loop leaves behind after `n` rounds: the miner's own end comes first. */
  function ExitAfter(rounds: seq<Round>, deadline: int, poll: int, n: nat): Exit
    requires n <= |rounds|
  {
    if n > 0 && rounds[n - 1].exited then MinerExited
    else if n < |rounds| && Breaks(rounds, deadline, poll, n).Some? then Breaks(rounds, deadline, poll, n).value
    else TimeUp
  }

  /** The loop of `run_gpu_mining_fill`. */
  method MiningLoop(rounds: seq<Round>, deadline: int, poll: int)
    returns (totalPaused: int, paused: bool, ops: seq<Op>, exit: Exit)
    ensures var n := Done(rounds, deadline, poll, 0);
      && ops == Ops(rounds[..n]) && totalPaused == Closed(ops) && paused == (|ops| % 2 == 1)
      && exit == ExitAfter(rounds, deadline, poll, n)
  {
    hide Ops, Closed, Level, Pressures;
    totalPaused, paused, ops, exit := 0, false, [], TimeUp;
    var pauseStart := 0;
    var i := 0;
    assert rounds[..0] == [];
    NothingYet();
    while i < |rounds| && rounds[i].head < deadline
      invariant 0 <= i <= |rounds|
      invariant Done(rounds, deadline, poll, i) == Done(rounds, deadline, poll, 0)
      invariant ops == Ops(rounds[..i]) && totalPaused == Closed(ops) && paused == Level(Pressures(rounds[..i]))
      invariant paused ==> ops != [] && pauseStart == ops[|ops| - 1].at
      invariant i > 0 ==> !rounds[i - 1].exited
      invariant exit == TimeUp
    {
      var r := rounds[i];
      if (if poll < deadline - r.sleeping then poll else deadline - r.sleeping) < 0 {
        exit := SleepRaised;
        break;
      }
      if r.pressure != paused && !r.acts {
        exit := ActRaised;
        break;
      }
      assert rounds[..i + 1] == rounds[..i] + [r];
      OpsMore(rounds[..i], r);
      if r.pressure && !paused {
        ClosedMore(ops, Op(true, r.acting));
        ops := ops + [Op(true, r.acting)];
        paused, pauseStart := true, r.acting;
      } else if !r.pressure && paused {
        ClosedMore(ops, Op(false, r.acting));
        ops := ops + [Op(false, r.acting)];
        totalPaused := totalPaused + r.acting - pauseStart;
        paused := false;
      } else {
        assert ops + [] == ops;
      }
      i := i + 1;
      if r.exited {
        exit := MinerExited;
        break;
      }
    }
    OpsAlternate(rounds[..i]);
  }

  // ---- where the loop stops -----------------------------------------------------------------

  /** The pressure changed from what the round before saw; before the first there was none. */
  predicate Changes(rounds: seq<Round>, i: nat)
    requires i < |rounds|
  {
    rounds[i].pressure != (i > 0 && rounds[i - 1].pressure)
  }

  lemma LevelIsLast(rounds: seq<Round>, i: nat)
    requires i < |rounds|
    ensures rounds[i].pressure != Level(Pressures(rounds[..i])) <==> Changes(rounds, i)
  {
    if i > 0 {
      assert rounds[..i][i - 1] == rounds[i - 1] && rounds[..i][..i - 1] == rounds[..i - 1];
      OneMore(Pressures(rounds[..i - 1]), Some(rounds[i - 1].pressure));
    }
  }

  /** The round begins before the deadline, can sleep, and the suspend or resume it makes, if
      any, succeeds. */
  predicate Completes(rounds: seq<Round>, deadline: int, poll: int, i: nat)
    requires i < |rounds|
  {
    var r := rounds[i];
    r.head < deadline && 0 <= poll && r.sleeping <= deadline && (Changes(rounds, i) ==> r.acts)
  }

  /** Rounds from `i` on complete and do not see the miner's end, but perhaps the last. */
  lemma {:induction false} DoneExactly(rounds: seq<Round>, deadline: int, poll: int, i: nat)
    requires i <= |rounds|
    ensures var n := Done(rounds, deadline, poll, i);
      && (forall k :: i <= k < n ==> Completes(rounds, deadline, poll, k))
      && (forall k :: i <= k < n - 1 ==> !rounds[k].exited)
      && (n < |rounds| && !(n > i && rounds[n - 1].exited) ==> !Completes(rounds, deadline, poll, n))
    decreases |rounds| - i
  {
    if i < |rounds| {
      LevelIsLast(rounds, i);
      hide Level, Pressures, Changes;
      if Completes(rounds, deadline, poll, i) && !rounds[i].exited {
        DoneExactly(rounds, deadline, poll, i + 1);
      }
    }
  }

  /** The loop runs the rounds up to the first that does not complete or that sees the miner's
      end, and leaves for the reason that round gives. */
  lemma StopsExactly(rounds: seq<Round>, deadline: int, poll: int)
    ensures var n := Done(rounds, deadline, poll, 0); var exit := ExitAfter(rounds, deadline, poll, n);
      && (forall k :: 0 <= k < n ==> Completes(rounds, deadline, poll, k))
      && (forall k :: 0 <= k < n - 1 ==> !rounds[k].exited)
      && (exit == MinerExited <==> n > 0 && rounds[n - 1].exited)
      && (exit != MinerExited && n < |rounds| ==>
            && !Completes(rounds, deadline, poll, n)
            && (exit == TimeUp <==> rounds[n].head >= deadline)
            && (exit == SleepRaised <==>
                  rounds[n].head < deadline && (poll < 0 || rounds[n].sleeping > deadline)))
      && (exit != MinerExited && n == |rounds| ==> exit == TimeUp)
  {
    DoneExactly(rounds, deadline, poll, 0);
    var n := Done(rounds, deadline, poll, 0);
    if n < |rounds| {
      LevelIsLast(rounds, n);
    }
    hide Level, Pressures, Changes, Done;
  }

  // ---- the accounting ----------------------------------------------------------------------

  /** One clock that never runs backwards, from `start` to `end`. */
  predicate Monotone(rounds: seq<Round>, start: int, end: int) {
    if rounds == [] then start <= end
    else
      var r := rounds[|rounds| - 1];
      Monotone(rounds[..|rounds| - 1], start, r.head) && r.head <= r.sleeping <= r.acting <= end
  }

  predicate Within(ops: seq<Op>, start: int, end: int) {
    && 0 <= Closed(ops) <= StoodStill(ops, end) <= end - start
    && (ops != [] ==> ops[|ops| - 1].at <= end)
  }

  /** Time passes, with or without one more operation in turn. */
  lemma WithinLater(ops: seq<Op>, start: int, head: int, acting: int, end: int)
    requires Within(ops, start, head) && head <= acting <= end
    requires ops != [] ==> ops[|ops| - 1].suspend == (|ops| % 2 == 1)
    ensures Within(ops, start, end) && Within(ops + [Op(|ops| % 2 == 0, acting)], start, end)
  {
    ClosedMore(ops, Op(|ops| % 2 == 0, acting));
    hide Closed;
  }

  lemma {:induction false} StillWithin(rounds: seq<Round>, start: int, end: int)
    requires Monotone(rounds, start, end)
    ensures Within(Ops(rounds), start, end)
  {
    hide Within;
    if rounds == [] {
      NothingWithin(start, end);
    } else {
      var n := |rounds| - 1;
      var r := rounds[n];
      StillWithin(rounds[..n], start, r.head);
      assert rounds == rounds[..n] + [r];
      OpsMore(rounds[..n], r);
      OpsAlternate(rounds[..n]);
      var ops := Ops(rounds[..n]);
      hide Ops, Level, Pressures;
      WithinLater(ops, start, r.head, r.acting, end);
      assert ops + [] == ops;
    }
  }

  lemma NothingWithin(start: int, end: int)
    requires start <= end
    ensures Within([], start, end)
  {}

  /** The paused time reported lies between zero and the elapsed time, and so does the active
      time computed from it. It is the time the miner really stood still exactly if it was
      not suspended at the end, or that last pause has no length: a pause still open at exit
      is counted as mining. */
  lemma PausedTimeIsSound(rounds: seq<Round>, start: int, end: int)
    requires Monotone(rounds, start, end)
    ensures var total := Closed(Ops(rounds));
      && 0 <= total <= end - start && 0 <= (end - start) - total <= end - start
      && total <= StoodStill(Ops(rounds), end)
      && (total == StoodStill(Ops(rounds), end)
          <==> (|Ops(rounds)| % 2 == 1 ==> Ops(rounds)[|Ops(rounds)| - 1].at == end))
  {
    StillWithin(rounds, start, end);
    OpsAlternate(rounds);
    hide Ops, Closed, Level;
  }

  /** What the source reports as active: wall-clock time less the paused time. */
  function ActiveSec(wallStart: int, wallEnd: int, totalPaused: int): int {
    (wallEnd - wallStart) - totalPaused
  }

  /** The reported active time is the time the miner ran, plus a pause still open at exit, plus
      what the wall clock was moved against the monotone one meanwhile. */
  lemma ActiveTimeExactly(rounds: seq<Round>, start: int, end: int, wallStart: int, wallEnd: int)
    requires Monotone(rounds, start, end)
    ensures var ops := Ops(rounds);
      var ran, open := (end - start) - StoodStill(ops, end), StoodStill(ops, end) - Closed(ops);
      var drift := (wallEnd - wallStart) - (end - start);
      && ran >= 0 && open >= 0 && (open > 0 ==> |ops| % 2 == 1)
      && ActiveSec(wallStart, wallEnd, Closed(ops)) == ran + open + drift
      && (drift == 0 ==> (ActiveSec(wallStart, wallEnd, Closed(ops)) == ran <==> open == 0))
  {
    StillWithin(rounds, start, end);
    OpsAlternate(rounds);
    hide Ops, Closed, Level;
  }
}
