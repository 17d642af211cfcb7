/** The autonomous fallback at the end of each heartbeat: when the agent mines on its own. */
module Fallback {
  import opened Text

  /** One beat: whether the dispatcher answered, whether the answer could be read and what it
      said about vacancy, whether Vast.AI was renting, and the two clock readings. A miner can
      also end on its own. */
  datatype Event =
    | Beat(ok: bool, vacant: Option<bool>, renting: bool, marked: int, now: int)
    | MinerEnds

  datatype State = State(offlineSince: Option<int>, mining: bool, vacant: bool)

  const FRESH := State(None, false, false)

  function Step(s: State, e: Event, threshold: int): State {
    if e.MinerEnds? then s.(mining := false)
    else if e.ok then State(None, false, if e.vacant.Some? then e.vacant.value else s.vacant)
    else if e.renting then s.(mining := false)
    else
      var since := if s.offlineSince == None then e.marked else s.offlineSince.value;
      State(Some(since), s.mining || (e.now - since >= threshold && !s.vacant), s.vacant)
  }

  function Run(es: seq<Event>, threshold: int): State {
    if es == [] then FRESH else Step(Run(es[..|es| - 1], threshold), es[|es| - 1], threshold)
  }

  class AutonomousMiner {
    var active: bool

    method Start()
      modifies this
      ensures active
    {
      if active {
        return;
      }
      active := true;
    }

    method Stop()
      modifies this
      ensures !active
    {
      if !active {
        return;
      }
      active := false;
    }
  }

  class Agent {
    const miner: AutonomousMiner
    const fallbackAfter: int
    var offlineSince: Option<int>
    var heatOverrideActive: bool

    ghost function Contents(): State
      reads this, miner
    {
      State(offlineSince, miner.active, heatOverrideActive)
    }

    constructor (fallbackAfter: int)
      ensures Contents() == FRESH && fresh(miner) && this.fallbackAfter == fallbackAfter
    {
      this.fallbackAfter := fallbackAfter;
      offlineSince, heatOverrideActive := None, false;
      var m := new AutonomousMiner;
      miner := m;
      new;
      miner.Stop();
    }

    /** What `_heartbeat_loop` does after the post returned or failed. */
    method AfterPost(ok: bool, vacant: Option<bool>, renting: bool, marked: int, now: int)
      modifies this, miner
      ensures Contents() == Step(old(Contents()), Beat(ok, vacant, renting, marked, now), fallbackAfter)
    {
      if ok && vacant.Some? {
        heatOverrideActive := vacant.value;
      }
      if ok {
        if miner.active {
          miner.Stop();
        }
        offlineSince := None;
      } else if renting {
        if miner.active {
          miner.Stop();
        }
      } else {
        if offlineSince == None {
          offlineSince := Some(marked);
        }
        var offline := now - offlineSince.value;
        if offline >= fallbackAfter && !miner.active && !heatOverrideActive {
          miner.Start();
        }
      }
    }
  }

  // ---- over whole runs ----------------------------------------------------------------------

  /** The dispatcher's answer said whether the room is vacant. */
  predicate Reports(e: Event) {
    e.Beat? && e.ok && e.vacant.Some?
  }

  predicate LastReport(es: seq<Event>, i: int) {
    0 <= i < |es| && Reports(es[i]) && forall k :: i < k < |es| ==> !Reports(es[k])
  }

  /** The last the dispatcher said of the room was that it is vacant. */
  predicate SaidVacant(es: seq<Event>) {
    exists i :: 0 <= i < |es| && LastReport(es, i) && es[i].vacant == Some(true)
  }

  lemma SaidMore(es: seq<Event>, e: Event)
    ensures SaidVacant(es + [e]) <==> if Reports(e) then e.vacant == Some(true) else SaidVacant(es)
  {
    var more := es + [e];
    assert more[|es|] == e && forall k :: 0 <= k < |es| ==> more[k] == es[k];
    hide Reports;
    if Reports(e) {
      assert LastReport(more, |es|);
    } else {
      assert forall i :: 0 <= i < |es| ==> LastReport(more, i) == LastReport(es, i);
    }
  }

  /** The room counts as vacant if and only if that is the last the dispatcher said of it. */
  lemma {:induction false} VacantAsReported(es: seq<Event>, threshold: int)
    ensures Run(es, threshold).vacant <==> SaidVacant(es)
  {
    if es != [] {
      var n := |es| - 1;
      VacantAsReported(es[..n], threshold);
      SaidMore(es[..n], es[n]);
      assert es == es[..n] + [es[n]];
      hide SaidVacant;
    }
  }

  /** The agent never mines while the last the dispatcher said of the room is that it is
      vacant, and a beat that was answered or found Vast.AI renting ends with the miner off. */
  lemma MiningIsProper(es: seq<Event>, threshold: int)
    ensures Run(es, threshold).mining ==> !SaidVacant(es)
    ensures es != [] && es[|es| - 1].Beat? && (es[|es| - 1].ok || es[|es| - 1].renting) ==> !Run(es, threshold).mining
    ensures Run(es, threshold).mining ==> Run(es, threshold).offlineSince.Some?
  {
    VacantAsReported(es, threshold);
    NeverInVacancy(es, threshold);
  }

  lemma {:induction false} NeverInVacancy(es: seq<Event>, threshold: int)
    ensures Run(es, threshold).mining ==> !Run(es, threshold).vacant
    ensures es != [] && es[|es| - 1].Beat? && (es[|es| - 1].ok || es[|es| - 1].renting) ==> !Run(es, threshold).mining
    ensures Run(es, threshold).mining ==> Run(es, threshold).offlineSince.Some?
  {
    if es != [] {
      NeverInVacancy(es[..|es| - 1], threshold);
    }
  }

  predicate Answered(e: Event) {
    e.Beat? && e.ok
  }

  /** Offline, and the GPU not rented out. */
  predicate Lost(e: Event) {
    e.Beat? && !e.ok && !e.renting
  }

  predicate AnsweredBetween(es: seq<Event>, from: int, to: int)
    requires 0 <= from && to <= |es|
  {
    exists k :: from <= k < to && Answered(es[k])
  }

  /** Beat `i` is the first lost one since the last that was answered. */
  predicate LostFrom(es: seq<Event>, i: nat) {
    && i < |es| && Lost(es[i]) && !AnsweredBetween(es, i, |es|)
    && forall k :: 0 <= k < i && Lost(es[k]) ==> AnsweredBetween(es, k, i)
  }

  /** Every lost beat has been followed by an answered one. */
  predicate NoneLost(es: seq<Event>) {
    forall k :: 0 <= k < |es| && Lost(es[k]) ==> AnsweredBetween(es, k, |es|)
  }

  lemma BetweenLater(es: seq<Event>, e: Event, from: int, to: int)
    requires 0 <= from && to <= |es|
    ensures AnsweredBetween(es + [e], from, to) == AnsweredBetween(es, from, to)
  {
    hide Answered;
    assert forall m :: 0 <= m < |es| ==> (es + [e])[m] == es[m];
  }

  lemma LostFromLater(es: seq<Event>, e: Event, i: nat)
    requires LostFrom(es, i) && !Answered(e)
    ensures LostFrom(es + [e], i) && (es + [e])[i] == es[i]
  {
    var more := es + [e];
    BetweenLater(es, e, i, |es|);
    forall k | 0 <= k < i && Lost(more[k]) ensures AnsweredBetween(more, k, i) {
      assert es[k] == more[k];
      BetweenLater(es, e, k, i);
    }
    hide Lost, Answered;
  }

  lemma AnswerClears(es: seq<Event>, e: Event)
    requires Answered(e)
    ensures NoneLost(es + [e])
  {
    assert (es + [e])[|es|] == e;
    hide Answered, Lost;
  }

  lemma QuietStays(es: seq<Event>, e: Event)
    requires NoneLost(es) && !Lost(e)
    ensures NoneLost(es + [e])
  {
    var more := es + [e];
    hide Answered, Lost;
    forall k | 0 <= k < |more| && Lost(more[k]) ensures AnsweredBetween(more, k, |more|) {
      assert more[k] == es[k];
      BetweenLater(es, e, k, |es|);
    }
  }

  lemma FirstLoss(es: seq<Event>, e: Event)
    requires NoneLost(es) && Lost(e)
    ensures LostFrom(es + [e], |es|) && (es + [e])[|es|] == e
  {
    var more := es + [e];
    forall k | 0 <= k < |es| && Lost(more[k]) ensures AnsweredBetween(more, k, |es|) {
      assert more[k] == es[k];
      BetweenLater(es, e, k, |es|);
    }
  }

  /** What `_offline_since` means: unset exactly if no beat was lost since the last answered
      one, else the mark of the first that was; beats that found Vast.AI renting do not count. */
  lemma {:induction false} OfflineSince(es: seq<Event>, threshold: int)
    ensures var since := Run(es, threshold).offlineSince;
      if since == None then NoneLost(es)
      else exists i: nat :: LostFrom(es, i) && since.value == es[i].marked
  {
    if es != [] {
      var n := |es| - 1;
      var earlier, e := es[..n], es[n];
      var before, after := Run(earlier, threshold).offlineSince, Run(es, threshold).offlineSince;
      OfflineSince(earlier, threshold);
      assert es == earlier + [e];
      assert after == if Answered(e) then None else if Lost(e) && before == None then Some(e.marked) else before;
      hide Run, LostFrom, NoneLost, Lost, Answered;
      if Answered(e) {
        AnswerClears(earlier, e);
      } else if before.Some? {
        var i: nat :| LostFrom(earlier, i) && before.value == earlier[i].marked;
        LostFromLater(earlier, e, i);
      } else if Lost(e) {
        FirstLoss(earlier, e);
      } else {
        QuietStays(earlier, e);
      }
    }
  }

  /** Beat `j` starts the miner. */
  predicate Starts(es: seq<Event>, j: nat, threshold: int) {
    j < |es| && es[j].Beat? && !Run(es[..j], threshold).mining && Run(es[..j + 1], threshold).mining
  }

  /** Beat `j` is lost, the room was not last reported vacant, and the threshold has passed
      since the first lost beat after the last answered one. */
  ghost predicate Due(es: seq<Event>, j: nat, threshold: int) {
    && j < |es| && Lost(es[j]) && !SaidVacant(es[..j])
    && exists i: nat :: LostFrom(es[..j + 1], i) && es[j].now - es[i].marked >= threshold
  }

  /** A beat starts the miner exactly if mining is due and nothing mines yet. */
  lemma StartsExactly(es: seq<Event>, j: nat, threshold: int)
    requires j < |es| && es[j].Beat?
    ensures Starts(es, j, threshold) <==> Due(es, j, threshold) && !Run(es[..j], threshold).mining
    ensures Lost(es[j]) ==>
      (Run(es[..j + 1], threshold).mining <==> Due(es, j, threshold) || Run(es[..j], threshold).mining)
  {
    VacantAsReported(es[..j], threshold);
    var upTo := es[..j + 1];
    assert upTo[..j] == es[..j];
    OfflineSince(upTo, threshold);
    forall i: nat, k: nat | LostFrom(upTo, i) && LostFrom(upTo, k) ensures i == k {
      OneLostFrom(upTo, i, k);
    }
    hide LostFrom, SaidVacant;
  }

  /** A miner that runs is stopped, or ends. */
  predicate Halts(e: Event) {
    e.MinerEnds? || e.ok || e.renting
  }

  /** Mining was due at `j`, and nothing has halted it since. */
  ghost predicate MinesSince(es: seq<Event>, j: nat, threshold: int) {
    Due(es, j, threshold) && forall k :: j < k < |es| ==> !Halts(es[k])
  }

  lemma MinesMore(es: seq<Event>, threshold: int)
    requires es != []
    ensures var n := |es| - 1;
      Run(es, threshold).mining <==> Due(es, n, threshold) || (Run(es[..n], threshold).mining && !Halts(es[n]))
  {
    var n := |es| - 1;
    assert es[..n + 1] == es;
    if Lost(es[n]) {
      StartsExactly(es, n, threshold);
    }
    hide LostFrom, SaidVacant;
  }

  lemma SinceMore(es: seq<Event>, j: nat, threshold: int)
    requires j < |es| - 1
    ensures var n := |es| - 1;
      MinesSince(es, j, threshold) <==> MinesSince(es[..n], j, threshold) && !Halts(es[n])
  {
    var n := |es| - 1;
    assert es[..n][..j] == es[..j] && es[..n][..j + 1] == es[..j + 1];
    hide LostFrom, SaidVacant, Lost, Halts;
  }

  lemma SinceWithin(es: seq<Event>, threshold: int)
    ensures forall j: nat :: MinesSince(es, j, threshold) ==> j < |es|
    ensures es != [] ==> (MinesSince(es, |es| - 1, threshold) <==> Due(es, |es| - 1, threshold))
  {
    hide LostFrom, SaidVacant, Lost, Halts;
  }

  /** The agent mines exactly if mining was due at some beat since which the dispatcher has not
      answered, Vast.AI was not found renting, and the miner has not ended on its own. */
  lemma {:induction false} MinesExactly(es: seq<Event>, threshold: int)
    ensures Run(es, threshold).mining <==> exists j: nat :: MinesSince(es, j, threshold)
  {
    SinceWithin(es, threshold);
    if es != [] {
      var n := |es| - 1;
      MinesExactly(es[..n], threshold);
      SinceWithin(es[..n], threshold);
      MinesMore(es, threshold);
      hide Run, Due, MinesSince, Halts;
      forall j: nat | j < n
        ensures MinesSince(es, j, threshold) <==> MinesSince(es[..n], j, threshold) && !Halts(es[n])
      {
        SinceMore(es, j, threshold);
      }
    }
  }

  lemma LostInOrder(es: seq<Event>, i: nat, k: nat)
    requires LostFrom(es, i) && LostFrom(es, k)
    ensures i <= k
  {
    assert k < i ==> AnsweredBetween(es, k, i) ==> AnsweredBetween(es, k, |es|);
  }

  lemma OneLostFrom(es: seq<Event>, i: nat, k: nat)
    requires LostFrom(es, i) && LostFrom(es, k)
    ensures i == k
  {
    LostInOrder(es, i, k);
    LostInOrder(es, k, i);
  }

  lemma AnsweredBefore(es: seq<Event>, i: nat, a: nat)
    requires LostFrom(es, i) && a < |es| && Answered(es[a])
    ensures a < i
  {}

  /** In particular no start within the threshold of an answered beat, under one clock. */
  lemma NoEarlyStart(es: seq<Event>, a: nat, j: nat, threshold: int)
    requires a < j < |es| && Answered(es[a]) && Starts(es, j, threshold)
    requires forall k :: a < k <= j && es[k].Beat? ==> es[a].now <= es[k].marked
    ensures es[j].now - es[a].now >= threshold
  {
    StartsExactly(es, j, threshold);
    var i: nat :| LostFrom(es[..j + 1], i) && es[j].now - es[i].marked >= threshold;
    AnsweredBefore(es[..j + 1], i, a);
  }
}
