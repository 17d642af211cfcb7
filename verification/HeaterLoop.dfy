/** The autonomous mode's loop as far as it operates the space heater. What each await brings
    is given: the passes that ran to their end, how the loop was left, and what became of
    every call. `_heater_service` swallows its failures, so a call can return without having
    reached the heater; a call that is cancelled may have reached it or not. */
module HeaterLoop {
  import opened Text
  import opened Toggle

  /** What one pass meets: the demand (a failed read counts as none), whether both mining
      handlers skipped, and whether the call it makes, if any, reaches the heater. */
  datatype Pass = Pass(demanded: bool, skipped: bool, reaches: bool)

  /** How the loop is left: the stop event seen at its head; cancelled in the read or in the
      mining chunk; cancelled in the heater call a pass makes; stopped or cancelled in the
      wait that follows. */
  datatype End = StopSeen | CancelledBeforeCall | CancelledInCall(pass: Pass) | LeftInWait(pass: Pass)

  /** The call in the `finally`, if there is one: it may be cancelled, and it may not reach. */
  datatype Exit = Exit(comesBack: bool, reaches: bool)

  /** A call to the heater. */
  datatype Sent = Sent(on: bool, returned: bool, reached: bool)

  /** A wish the loop acts on, and what becomes of the call it makes if it makes one. */
  datatype Attempt = Attempt(wish: Option<bool>, comesBack: bool, reaches: bool)

  /** What the pass wants of the heater; running miners leave it as it is. */
  function Wish(p: Pass, configured: bool): Option<bool> {
    if !p.demanded then Some(false) else if p.skipped && configured then Some(true) else None
  }

  function PassAttempts(passes: seq<Pass>, configured: bool): seq<Attempt> {
    if passes == [] then []
    else
      var p := passes[|passes| - 1];
      PassAttempts(passes[..|passes| - 1], configured) + [Attempt(Wish(p, configured), true, p.reaches)]
  }

  function EndAttempts(end: End, configured: bool): seq<Attempt> {
    match end
    case CancelledInCall(p) => [Attempt(Wish(p, configured), false, p.reaches)]
    case LeftInWait(p) => [Attempt(Wish(p, configured), true, p.reaches)]
    case _ => []
  }

  /** Everything the loop attempts, its `finally` last. */
  function Attempts(passes: seq<Pass>, end: End, configured: bool, exit: Exit): seq<Attempt> {
    PassAttempts(passes, configured) + EndAttempts(end, configured)
    + [Attempt(Some(false), exit.comesBack, exit.reaches)]
  }

  /** `heater_on`: set after a call has returned, whether it reached the heater or not. */
  function Believed(attempts: seq<Attempt>): bool {
    if attempts == [] then false
    else
      var a, before := attempts[|attempts| - 1], Believed(attempts[..|attempts| - 1]);
      if a.wish.Some? && a.comesBack then a.wish.value else before
  }

  /** Attempt `k` makes a call, to switch on or off. */
  predicate CallsAt(attempts: seq<Attempt>, k: int, on: bool) {
    0 <= k < |attempts| && attempts[k].wish == Some(on) && Believed(attempts[..k]) != on
  }

  /** How the heater really stands. */
  function Heater(attempts: seq<Attempt>, before: bool): bool {
    if attempts == [] then before
    else
      var n := |attempts| - 1;
      var a := attempts[n];
      if a.wish.Some? && a.wish.value != Believed(attempts[..n]) && a.reaches then a.wish.value
      else Heater(attempts[..n], before)
  }

  /** The call an attempt makes, if the loop believes the heater to stand otherwise. */
  function CallOf(a: Attempt, believed: bool): seq<Sent> {
    if a.wish.Some? && a.wish.value != believed then [Sent(a.wish.value, a.comesBack, a.reaches)] else []
  }

  function Calls(attempts: seq<Attempt>): seq<Sent> {
    if attempts == [] then []
    else
      var n := |attempts| - 1;
      Calls(attempts[..n]) + CallOf(attempts[n], Believed(attempts[..n]))
  }

  lemma AttemptMore(attempts: seq<Attempt>, a: Attempt)
    ensures Believed(attempts + [a]) == if a.wish.Some? && a.comesBack then a.wish.value else Believed(attempts)
    ensures Calls(attempts + [a]) == Calls(attempts) + CallOf(a, Believed(attempts))
  {
    assert (attempts + [a])[..|attempts|] == attempts;
  }

  /** Brings the heater to where the attempt wants it, in at most one call. */
  method Operate(sent: seq<Sent>, heaterOn: bool, a: Attempt) returns (sent': seq<Sent>, heaterOn': bool)
    ensures sent' == sent + CallOf(a, heaterOn)
    ensures heaterOn' == if a.wish.Some? && a.comesBack then a.wish.value else heaterOn
  {
    sent', heaterOn' := sent, heaterOn;
    if a.wish.Some? && a.wish.value != heaterOn {
      sent' := sent + [Sent(a.wish.value, a.comesBack, a.reaches)];
      if a.comesBack {
        heaterOn' := a.wish.value;
      }
    } else {
      assert sent + [] == sent;
    }
  }

  /** `_loop` from its start to the end of its `finally`: the calls it sends, in order. */
  method Loop(passes: seq<Pass>, end: End, configured: bool, exit: Exit) returns (sent: seq<Sent>)
    ensures sent == Calls(Attempts(passes, end, configured, exit))
  {
    hide Believed, Calls, Wish;
    sent := [];
    var heaterOn := false;
    NothingYet();
    for i := 0 to |passes|
      invariant heaterOn == Believed(PassAttempts(passes[..i], configured))
      invariant sent == Calls(PassAttempts(passes[..i], configured))
    {
      assert passes[..i + 1][..i] == passes[..i];
      var a := Attempt(Wish(passes[i], configured), true, passes[i].reaches);
      AttemptMore(PassAttempts(passes[..i], configured), a);
      sent, heaterOn := Operate(sent, heaterOn, a);
    }
    assert passes[..|passes|] == passes;
    ghost var soFar := PassAttempts(passes, configured);
    assert soFar + [] == soFar;
    if end.LeftInWait? || end.CancelledInCall? {
      var a := Attempt(Wish(end.pass, configured), end.LeftInWait?, end.pass.reaches);
      AttemptMore(soFar, a);
      sent, heaterOn := Operate(sent, heaterOn, a);
    }
    var last := Attempt(Some(false), exit.comesBack, exit.reaches);
    AttemptMore(soFar + EndAttempts(end, configured), last);
    sent, heaterOn := Operate(sent, heaterOn, last);
  }

  lemma NothingYet()
    ensures !Believed([]) && Calls([]) == []
  {}

  // ---- what the passes make of it ------------------------------------------------------------

  /** Heat is demanded, both miners skipped, and there is a heater to turn on. */
  predicate NeedsHeater(p: Pass, configured: bool) {
    p.demanded && p.skipped && configured
  }

  /** Some pass needed the heater, and heat has been demanded at every pass since. */
  predicate HeatHeld(passes: seq<Pass>, configured: bool) {
    exists k :: 0 <= k < |passes| && NeedsHeater(passes[k], configured)
                && forall j :: k < j < |passes| ==> passes[j].demanded
  }

  lemma HeldMore(passes: seq<Pass>, p: Pass, configured: bool)
    ensures HeatHeld(passes + [p], configured) <==>
      NeedsHeater(p, configured) || (HeatHeld(passes, configured) && p.demanded)
  {
    var more := passes + [p];
    assert more[|passes|] == p && forall k :: 0 <= k < |passes| ==> more[k] == passes[k];
    hide NeedsHeater;
  }

  /** After any passes the loop believes the heater on exactly if one of them needed it and heat
      has been demanded ever since, mining or not. */
  lemma {:induction false} BelievedExactly(passes: seq<Pass>, configured: bool)
    ensures Believed(PassAttempts(passes, configured)) <==> HeatHeld(passes, configured)
  {
    if passes != [] {
      var n := |passes| - 1;
      BelievedExactly(passes[..n], configured);
      HeldMore(passes[..n], passes[n], configured);
      assert passes == passes[..n] + [passes[n]];
      AttemptMore(PassAttempts(passes[..n], configured),
                  Attempt(Wish(passes[n], configured), true, passes[n].reaches));
      hide HeatHeld, Believed;
    }
  }

  /** What is sent in the pass after these: a turn-on where the heater is needed and not held
      on already, a turn-off where it was held and heat is not demanded any more. */
  function PassCall(passes: seq<Pass>, p: Pass, configured: bool, returned: bool): seq<Sent> {
    var held := HeatHeld(passes, configured);
    if NeedsHeater(p, configured) && !held then [Sent(true, returned, p.reaches)]
    else if !p.demanded && held then [Sent(false, returned, p.reaches)]
    else []
  }

  function PassCalls(passes: seq<Pass>, configured: bool): seq<Sent> {
    if passes == [] then []
    else
      var n := |passes| - 1;
      PassCalls(passes[..n], configured) + PassCall(passes[..n], passes[n], configured, true)
  }

  lemma {:induction false} PassesSend(passes: seq<Pass>, configured: bool)
    ensures Calls(PassAttempts(passes, configured)) == PassCalls(passes, configured)
  {
    if passes != [] {
      var n := |passes| - 1;
      PassesSend(passes[..n], configured);
      BelievedExactly(passes[..n], configured);
      AttemptMore(PassAttempts(passes[..n], configured),
                  Attempt(Wish(passes[n], configured), true, passes[n].reaches));
      hide HeatHeld, Believed, Calls;
    }
  }

  /** The call of the pass the loop was left in; it comes back unless it was cancelled. */
  function LastCall(passes: seq<Pass>, end: End, configured: bool): seq<Sent> {
    if end.LeftInWait? || end.CancelledInCall? then PassCall(passes, end.pass, configured, end.LeftInWait?) else []
  }

  /** The heater counts as on when the loop is left: a call cancelled on its way does not. */
  predicate HeldAtEnd(passes: seq<Pass>, end: End, configured: bool) {
    HeatHeld(if end.LeftInWait? then passes + [end.pass] else passes, configured)
  }

  lemma EndSends(passes: seq<Pass>, end: End, configured: bool)
    ensures var all := PassAttempts(passes, configured) + EndAttempts(end, configured);
      && Calls(all) == PassCalls(passes, configured) + LastCall(passes, end, configured)
      && (Believed(all) <==> HeldAtEnd(passes, end, configured))
  {
    var before := PassAttempts(passes, configured);
    PassesSend(passes, configured);
    BelievedExactly(passes, configured);
    if end.LeftInWait? || end.CancelledInCall? {
      HeldMore(passes, end.pass, configured);
      AttemptMore(before, Attempt(Wish(end.pass, configured), end.LeftInWait?, end.pass.reaches));
    } else {
      assert before + [] == before && PassCalls(passes, configured) + [] == PassCalls(passes, configured);
    }
    hide HeatHeld, Believed, Calls, PassCalls, PassAttempts;
  }

  /** Everything the loop sends, from what it met: pass by pass, then in the pass it was left
      in, then the turn-off of its `finally` if the heater counts as on. */
  lemma SendsExactly(passes: seq<Pass>, end: End, configured: bool, exit: Exit)
    ensures Calls(Attempts(passes, end, configured, exit))
         == PassCalls(passes, configured) + LastCall(passes, end, configured)
            + if HeldAtEnd(passes, end, configured) then [Sent(false, exit.comesBack, exit.reaches)] else []
  {
    EndSends(passes, end, configured);
    AttemptMore(PassAttempts(passes, configured) + EndAttempts(end, configured),
                Attempt(Some(false), exit.comesBack, exit.reaches));
    hide HeldAtEnd, LastCall, Believed, Calls, PassCalls, PassAttempts, EndAttempts;
  }

  /** Without a heater configured nothing is ever sent. */
  lemma UnconfiguredIsSilent(passes: seq<Pass>, end: End, exit: Exit)
    ensures Calls(Attempts(passes, end, false, exit)) == []
  {
    SendsExactly(passes, end, false, exit);
    hide Calls, Attempts;
    NothingSent(passes);
    if end.LeftInWait? {
      HeldMore(passes, end.pass, false);
    }
    hide HeatHeld, PassCalls;
  }

  lemma {:induction false} NothingSent(passes: seq<Pass>)
    ensures PassCalls(passes, false) == [] && !HeatHeld(passes, false)
  {
    if passes != [] {
      NothingSent(passes[..|passes| - 1]);
    }
  }

  // ---- the calls that return ---------------------------------------------------------------

  function Returned(sent: seq<Sent>): seq<bool> {
    if sent == [] then []
    else Returned(sent[..|sent| - 1]) + if sent[|sent| - 1].returned then [sent[|sent| - 1].on] else []
  }

  lemma ReturnedMore(sent: seq<Sent>, x: Sent)
    ensures Returned(sent + [x]) == Returned(sent) + if x.returned then [x.on] else []
    ensures Returned(sent + []) == Returned(sent)
  {
    assert (sent + [x])[..|sent|] == sent && sent + [] == sent;
  }

  /** Alternating calls, after which the switch is believed to stand like this. */
  ghost predicate InTurn(calls: seq<bool>, believed: bool) {
    Alternating(calls) && believed == (|calls| % 2 == 1)
  }

  lemma InTurnMore(calls: seq<bool>, believed: bool)
    requires InTurn(calls, believed)
    ensures InTurn(calls + [!believed], !believed) && InTurn(calls + [], believed)
  {
    assert calls + [] == calls;
  }

  lemma CallInTurn(calls: seq<Sent>, believed: bool, a: Attempt)
    requires InTurn(Returned(calls), believed)
    ensures var after := if a.wish.Some? && a.comesBack then a.wish.value else believed;
      InTurn(Returned(calls + CallOf(a, believed)), after)
  {
    ReturnedMore(calls, Sent(!believed, a.comesBack, a.reaches));
    InTurnMore(Returned(calls), believed);
    hide InTurn, Returned;
  }

  /** The calls that returned alternate on, off, on, off, and their number tells what the loop
      believes. */
  lemma {:induction false} ReturnedAlternate(attempts: seq<Attempt>)
    ensures InTurn(Returned(Calls(attempts)), Believed(attempts))
  {
    if attempts == [] {
      NothingReturned();
    } else {
      var n := |attempts| - 1;
      assert attempts == attempts[..n] + [attempts[n]];
      AttemptMore(attempts[..n], attempts[n]);
      hide *;
      ReturnedAlternate(attempts[..n]);
      CallInTurn(Calls(attempts[..n]), Believed(attempts[..n]), attempts[n]);
    }
  }

  lemma NothingReturned()
    ensures InTurn(Returned(Calls([])), Believed([]))
  {}

  /** On every exit whose `finally` needs no call or gets its call back, the calls that
      returned alternate and are balanced, and otherwise exactly one turn-off is missing. */
  lemma CallsAreBalanced(passes: seq<Pass>, end: End, configured: bool, exit: Exit)
    ensures var attempts := Attempts(passes, end, configured, exit);
      && Alternating(Returned(Calls(attempts)))
      && (|Returned(Calls(attempts))| % 2 == 0 <==> exit.comesBack || !CallsAt(attempts, |attempts| - 1, false))
  {
    var attempts := Attempts(passes, end, configured, exit);
    ReturnedAlternate(attempts);
    hide Calls, Returned, PassAttempts, EndAttempts, Alternating;
  }

  // ---- where the heater is left -------------------------------------------------------------

  /** No turn-off that is sent after attempt `k` reaches the heater. */
  ghost predicate NeverOffAfter(attempts: seq<Attempt>, k: int) {
    forall j :: k < j < |attempts| && CallsAt(attempts, j, false) ==> !attempts[j].reaches
  }

  ghost predicate SwitchedOnFor(attempts: seq<Attempt>, k: int) {
    CallsAt(attempts, k, true) && attempts[k].reaches && NeverOffAfter(attempts, k)
  }

  lemma CallsEarlier(attempts: seq<Attempt>, a: Attempt, k: int, on: bool)
    requires k < |attempts|
    ensures CallsAt(attempts + [a], k, on) == CallsAt(attempts, k, on)
    ensures 0 <= k ==> (attempts + [a])[k] == attempts[k]
  {
    if 0 <= k {
      assert (attempts + [a])[..k] == attempts[..k];
    }
  }

  lemma NeverOffMore(attempts: seq<Attempt>, a: Attempt, k: int)
    requires k < |attempts|
    ensures NeverOffAfter(attempts + [a], k) <==>
      NeverOffAfter(attempts, k) && !(CallsAt(attempts + [a], |attempts|, false) && a.reaches)
    ensures SwitchedOnFor(attempts + [a], k) <==>
      SwitchedOnFor(attempts, k) && !(CallsAt(attempts + [a], |attempts|, false) && a.reaches)
  {
    forall j, on | j < |attempts| ensures CallsAt(attempts + [a], j, on) == CallsAt(attempts, j, on)
      ensures 0 <= j ==> (attempts + [a])[j] == attempts[j]
    {
      CallsEarlier(attempts, a, j, on);
    }
    assert (attempts + [a])[|attempts|] == a;
    hide CallsAt;
  }

  lemma HeaterMore(attempts: seq<Attempt>, a: Attempt, before: bool)
    ensures var more, n := attempts + [a], |attempts|;
      Heater(more, before) <==>
        (CallsAt(more, n, true) && a.reaches) || (Heater(attempts, before) && !(CallsAt(more, n, false) && a.reaches))
    ensures !(CallsAt(attempts + [a], |attempts|, true) && CallsAt(attempts + [a], |attempts|, false))
  {
    assert (attempts + [a])[..|attempts|] == attempts && (attempts + [a])[|attempts|] == a;
    hide Believed;
  }

  /** After whatever the loop did, the heater is on exactly if some turn-on reached it and no
      turn-off sent later did, or it was on before and no turn-off reached it at all. */
  lemma {:induction false} HeaterStands(attempts: seq<Attempt>, before: bool)
    ensures Heater(attempts, before) <==>
      (exists k :: SwitchedOnFor(attempts, k)) || (before && NeverOffAfter(attempts, -1))
  {
    if attempts != [] {
      var n := |attempts| - 1;
      var init, a := attempts[..n], attempts[n];
      assert attempts == init + [a];
      HeaterStands(init, before);
      HeaterMore(init, a, before);
      forall k | k < n ensures SwitchedOnFor(attempts, k)
          <==> SwitchedOnFor(init, k) && !(CallsAt(attempts, n, false) && a.reaches)
      {
        NeverOffMore(init, a, k);
      }
      NeverOffMore(init, a, -1);
      LastOn(attempts, n);
      hide Heater, CallsAt, NeverOffAfter, SwitchedOnFor;
      assert forall k :: SwitchedOnFor(init, k) ==> k < n by { OnWithin(init); }
      assert forall k :: SwitchedOnFor(attempts, k) ==> k < n + 1 by { OnWithin(attempts); }
    }
  }

  /** Where calls leave a heater: as the last one that reached it said. */
  function StandsAfter(sent: seq<Sent>, before: bool): bool {
    if sent == [] then before
    else if sent[|sent| - 1].reached then sent[|sent| - 1].on
    else StandsAfter(sent[..|sent| - 1], before)
  }

  lemma OneSent(sent: seq<Sent>, x: Sent, before: bool)
    ensures StandsAfter(sent + [x], before) == if x.reached then x.on else StandsAfter(sent, before)
  {
    assert (sent + [x])[..|sent|] == sent;
  }

  /** The heater stands as the calls the loop sent leave it. */
  lemma {:induction false} CallsDecide(attempts: seq<Attempt>, before: bool)
    ensures Heater(attempts, before) == StandsAfter(Calls(attempts), before)
  {
    if attempts != [] {
      var n := |attempts| - 1;
      CallsDecide(attempts[..n], before);
      var sent := Calls(attempts[..n]);
      OneSent(sent, Sent(true, attempts[n].comesBack, attempts[n].reaches), before);
      OneSent(sent, Sent(false, attempts[n].comesBack, attempts[n].reaches), before);
      assert sent + [] == sent;
      hide Believed, StandsAfter;
    }
  }

  lemma LastOn(attempts: seq<Attempt>, n: int)
    requires n == |attempts| - 1 && n >= 0
    ensures SwitchedOnFor(attempts, n) <==> CallsAt(attempts, n, true) && attempts[n].reaches
  {
    hide CallsAt;
  }

  lemma OnWithin(attempts: seq<Attempt>)
    ensures forall k :: SwitchedOnFor(attempts, k) ==> k < |attempts|
  {}

  // ---- which passes and outcomes lead there ----------------------------------------------------

  /** The loop was cancelled while turning the heater on, and the call got through. */
  predicate CutTurningOn(passes: seq<Pass>, end: End, configured: bool) {
    end.CancelledInCall? && NeedsHeater(end.pass, configured) && !HeatHeld(passes, configured) && end.pass.reaches
  }

  /** Attempt `j` turns the heater off in vain: it was on, the call does not reach it, and no
      turn-off sent later does. */
  ghost predicate MissedOff(attempts: seq<Attempt>, j: int) {
    CallsAt(attempts, j, false) && !attempts[j].reaches && Heater(attempts[..j], false) && NeverOffAfter(attempts, j)
  }

  /** A heater that is on is believed on, or a turn-off was missed. */
  ghost predicate Explained(attempts: seq<Attempt>) {
    Heater(attempts, false) ==> Believed(attempts) || exists j :: MissedOff(attempts, j)
  }

  lemma MissedMore(attempts: seq<Attempt>, a: Attempt, j: int)
    requires j < |attempts|
    ensures MissedOff(attempts + [a], j) <==>
      MissedOff(attempts, j) && !(CallsAt(attempts + [a], |attempts|, false) && a.reaches)
  {
    CallsEarlier(attempts, a, j, false);
    NeverOffMore(attempts, a, j);
    if 0 <= j {
      assert (attempts + [a])[..j] == attempts[..j];
    }
    hide CallsAt, NeverOffAfter, Heater;
  }

  lemma MissedNow(attempts: seq<Attempt>, a: Attempt)
    requires Heater(attempts, false) && a.wish == Some(false) && Believed(attempts) && !a.reaches
    ensures MissedOff(attempts + [a], |attempts|)
  {
    assert (attempts + [a])[..|attempts|] == attempts;
    hide Heater, Believed;
  }

  /** Any attempt keeps the heater explained, but for a turn-on that is cut and gets through. */
  lemma ExplainedMore(attempts: seq<Attempt>, a: Attempt)
    requires Explained(attempts)
    ensures Explained(attempts + [a]) || (a.wish == Some(true) && !Believed(attempts) && !a.comesBack && a.reaches)
  {
    var more, n := attempts + [a], |attempts|;
    HeaterMore(attempts, a, false);
    AttemptMore(attempts, a);
    assert more[..n] == attempts && more[n] == a;
    if Heater(attempts, false) && a.wish == Some(false) && Believed(attempts) && !a.reaches {
      MissedNow(attempts, a);
    }
    if j :| MissedOff(attempts, j) {
      MissedMore(attempts, a, j);
    }
    hide Heater, Believed, MissedOff;
  }

  lemma {:induction false} PassesExplained(passes: seq<Pass>, configured: bool)
    ensures Explained(PassAttempts(passes, configured))
  {
    hide Explained;
    if passes == [] {
      NothingToExplain();
    } else {
      var n := |passes| - 1;
      PassesExplained(passes[..n], configured);
      var a := Attempt(Wish(passes[n], configured), true, passes[n].reaches);
      ExplainedMore(PassAttempts(passes[..n], configured), a);
    }
  }

  lemma NothingToExplain()
    ensures Explained([])
  {}

  lemma {:induction false} MissedStaysOn(attempts: seq<Attempt>, j: int)
    requires MissedOff(attempts, j)
    ensures Heater(attempts, false)
  {
    var n := |attempts| - 1;
    var init, a := attempts[..n], attempts[n];
    assert attempts == init + [a];
    HeaterMore(init, a, false);
    if j < n {
      MissedMore(init, a, j);
      hide Heater, MissedOff;
      MissedStaysOn(init, j);
    }
  }

  lemma CutStaysOn(passes: seq<Pass>, end: End, configured: bool, exit: Exit)
    requires CutTurningOn(passes, end, configured)
    ensures Heater(Attempts(passes, end, configured, exit), false)
  {
    BelievedExactly(passes, configured);
    var before := PassAttempts(passes, configured);
    var cut := Attempt(Wish(end.pass, configured), false, end.pass.reaches);
    var last := Attempt(Some(false), exit.comesBack, exit.reaches);
    assert cut.wish == Some(true);
    hide Wish, PassAttempts, HeatHeld;
    AttemptMore(before, cut);
    HeaterMore(before, cut, false);
    assert (before + [cut])[..|before|] == before;
    assert Heater(before + [cut], false);
    HeaterMore(before + [cut], last, false);
    assert (before + [cut] + [last])[..|before| + 1] == before + [cut];
    hide Heater;
  }

  /** With the heater off at first, the loop leaves it on exactly if it was cancelled in a
      turn-on that got through, or it missed a turn-off and no later one reached: a turn-off
      that returns without effect is enough, for the loop then believes the heater off. */
  lemma LeftOnExactly(passes: seq<Pass>, end: End, configured: bool, exit: Exit)
    ensures var attempts := Attempts(passes, end, configured, exit);
      Heater(attempts, false) <==> CutTurningOn(passes, end, configured) || exists j :: MissedOff(attempts, j)
  {
    var attempts := Attempts(passes, end, configured, exit);
    if CutTurningOn(passes, end, configured) {
      CutStaysOn(passes, end, configured, exit);
    } else {
      PassesExplained(passes, configured);
      BelievedExactly(passes, configured);
      var before := PassAttempts(passes, configured);
      assert before + [] == before;
      if end.LeftInWait? || end.CancelledInCall? {
        ExplainedMore(before, EndAttempts(end, configured)[0]);
      }
      var all := before + EndAttempts(end, configured);
      hide Heater, MissedOff, Wish, PassAttempts, CallsAt, NeverOffAfter;
      LastExplained(all, Attempt(Some(false), exit.comesBack, exit.reaches));
    }
    forall j | MissedOff(attempts, j) ensures Heater(attempts, false) {
      MissedStaysOn(attempts, j);
    }
  }

  lemma LastExplained(attempts: seq<Attempt>, last: Attempt)
    requires Explained(attempts) && last.wish == Some(false)
    ensures Heater(attempts + [last], false) ==> exists j :: MissedOff(attempts + [last], j)
  {
    HeaterMore(attempts, last, false);
    assert (attempts + [last])[..|attempts|] == attempts && (attempts + [last])[|attempts|] == last;
    if Heater(attempts, false) && Believed(attempts) && !last.reaches {
      MissedNow(attempts, last);
    }
    if j :| MissedOff(attempts, j) {
      MissedMore(attempts, last, j);
    }
    hide Heater, Believed, MissedOff;
  }

  /** A heater that is on and believed off is not switched off again: until heat is demanded
      anew the loop, its `finally` included, sends nothing. */
  lemma {:induction false} BelievedOffStaysOn(attempts: seq<Attempt>, more: seq<Attempt>, before: bool)
    requires Heater(attempts, before) && !Believed(attempts)
    requires forall i :: 0 <= i < |more| ==> more[i].wish != Some(true)
    ensures Calls(attempts + more) == Calls(attempts)
    ensures Heater(attempts + more, before) && !Believed(attempts + more)
  {
    if more == [] {
      assert attempts + more == attempts;
    } else {
      var n := |more| - 1;
      BelievedOffStaysOn(attempts, more[..n], before);
      assert attempts + more == attempts + more[..n] + [more[n]];
      AttemptMore(attempts + more[..n], more[n]);
      HeaterMore(attempts + more[..n], more[n], before);
      assert (attempts + more)[..|attempts| + n] == attempts + more[..n];
      hide Heater, Believed, Calls;
    }
  }
}
