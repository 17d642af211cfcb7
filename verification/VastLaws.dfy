/** What every run of the listing state machine keeps: the session account, the match with
    the marketplace, and how it comes to rest. */
module VastLaws {
  import opened Text
  import opened Vast

  /** The provider as the agent starts it. */
  predicate Started(s: Machine) {
    s.enabled && s.phase == Unlisted && s.listedAt == None && s.price == None && s.sessions == []
  }

  // ---- what an event did ----------------------------------------------------------

  /** The event listed the machine. */
  predicate Lists(s: Machine, e: Event) {
    s.phase != Listed && Step(s, e).phase == Listed
  }

  /** The event found the last renter gone. */
  predicate Drains(s: Machine, e: Event) {
    s.phase == Unlisting && Step(s, e).phase == Unlisted && e.Update? && !Wanted(s, e.tick)
  }

  predicate ListsAt(s: Machine, es: seq<Event>, j: int) {
    0 <= j < |es| && Lists(Run(s, es[..j]), es[j])
  }

  predicate DrainsAt(s: Machine, es: seq<Event>, j: int) {
    0 <= j < |es| && Drains(Run(s, es[..j]), es[j])
  }

  ghost predicate NoListing(s: Machine, es: seq<Event>, from: int, to: int) {
    forall j :: from <= j < to ==> !ListsAt(s, es, j)
  }

  ghost predicate NoDrain(s: Machine, es: seq<Event>, from: int, to: int) {
    forall j :: from <= j < to ==> !DrainsAt(s, es, j)
  }

  lemma ActsEarlier(s: Machine, es: seq<Event>, j: int)
    requires 0 <= j < |es| - 1
    ensures ListsAt(s, es[..|es| - 1], j) == ListsAt(s, es, j)
    ensures DrainsAt(s, es[..|es| - 1], j) == DrainsAt(s, es, j)
    ensures es[..|es| - 1][j] == es[j]
  {
    assert es[..|es| - 1][..j] == es[..j];
  }

  // ---- the session account -----------------------------------------------------------

  /** Where one logged session comes from: listed by event `opening`, drained by `closing`. */
  datatype Span = Span(opening: nat, closing: nat)

  function After(spans: seq<Span>, k: nat): nat
    requires k <= |spans|
  {
    if k == 0 then 0 else spans[k - 1].closing + 1
  }

  /** `j` is the first listing from `since` on. */
  ghost predicate FirstListing(s: Machine, es: seq<Event>, since: nat, j: nat) {
    since <= j && ListsAt(s, es, j) && NoListing(s, es, since, j)
  }

  /** The k-th session runs from the first listing after the drain before it to the next
      drain, with the price and the stamps of those two events. */
  ghost predicate Accounts(s: Machine, es: seq<Event>, spans: seq<Span>, sessions: seq<Session>, k: nat)
    requires k < |spans| == |sessions|
  {
    var x := spans[k];
    && x.opening < x.closing < |es| && es[x.opening].Update? && es[x.closing].Update?
    && FirstListing(s, es, After(spans, k), x.opening)
    && DrainsAt(s, es, x.closing)
    && NoDrain(s, es, After(spans, k), x.closing)
    && sessions[k] == Session(es[x.opening].tick.stamped, es[x.closing].tick.stamped,
                              PriceOf(es[x.opening].tick.price))
  }

  /** `j` is the first listing from `since` on, and its stamp and price are on record. */
  ghost predicate Opens(s: Machine, es: seq<Event>, since: nat, j: nat, now: Machine) {
    && FirstListing(s, es, since, j) && j < |es| && es[j].Update?
    && now.listedAt == Some(es[j].tick.stamped) && now.price == PriceOf(es[j].tick.price)
  }

  /** Since the last drain: no listing and nothing recorded, or the first one recorded. */
  ghost predicate Pending(s: Machine, es: seq<Event>, since: nat, now: Machine) {
    && since <= |es|
    && NoDrain(s, es, since, |es|)
    && (if now.listedAt == None then NoListing(s, es, since, |es|)
        else exists j: nat :: Opens(s, es, since, j, now))
  }

  lemma AccountsLater(s: Machine, es: seq<Event>, spans: seq<Span>, sessions: seq<Session>, k: nat)
    requires es != [] && k < |spans| == |sessions| && Accounts(s, es[..|es| - 1], spans, sessions, k)
    ensures Accounts(s, es, spans, sessions, k)
  {
    hide ListsAt, DrainsAt;
    forall j | 0 <= j < |es| - 1
      ensures ListsAt(s, es[..|es| - 1], j) == ListsAt(s, es, j)
      ensures DrainsAt(s, es[..|es| - 1], j) == DrainsAt(s, es, j)
      ensures es[..|es| - 1][j] == es[j]
    {
      ActsEarlier(s, es, j);
    }
    assert ListsAt(s, es[..|es| - 1], spans[k].opening);
    assert spans[k].opening < |es| - 1;
  }

  /** While the machine is listed or draining, the start is on record; without one there is
      no price either. */
  predicate Recorded(s: Machine) {
    && s.enabled
    && (s.phase == Listed || s.phase == Unlisting ==> s.listedAt.Some?)
    && (s.price.Some? ==> s.listedAt.Some?)
  }

  lemma StepRecords(s: Machine, e: Event)
    requires Recorded(s)
    ensures Recorded(Step(s, e))
    ensures Drains(s, e) ==> s.listedAt.Some? && e.Update? && Step(s, e).listedAt == None
    ensures Drains(s, e) ==> Step(s, e).sessions == s.sessions + [Session(s.listedAt.value, e.tick.stamped, s.price)]
    ensures !Drains(s, e) ==> Step(s, e).sessions == s.sessions
    ensures Lists(s, e) && s.listedAt == None ==>
      e.Update? && Step(s, e).listedAt == Some(e.tick.stamped) && Step(s, e).price == PriceOf(e.tick.price)
    ensures !Drains(s, e) && !(Lists(s, e) && s.listedAt == None) ==>
      Step(s, e).listedAt == s.listedAt && Step(s, e).price == s.price
  {}

  /** What a call that opens a session puts on record: the moment, and the price if the reply
      gives one. */
  lemma ListingRecords(s: Machine, t: Tick)
    requires ListCall(s, Update(t)) && t.reply == Done && s.listedAt == None
    ensures UpdateStep(s, t) == s.(phase := Listed, offer := true, listedAt := Some(t.stamped),
      price := match t.price case Price(p) => Some(p) case NoPrice => None case PriceRaised => s.price)
  {}

  lemma OpensLater(s: Machine, es: seq<Event>, since: nat, j: nat, now: Machine, later: Machine)
    requires es != [] && Opens(s, es[..|es| - 1], since, j, now)
    requires later.listedAt == now.listedAt && later.price == now.price
    ensures Opens(s, es, since, j, later)
  {
    hide ListsAt;
    forall i | 0 <= i < |es| - 1
      ensures ListsAt(s, es[..|es| - 1], i) == ListsAt(s, es, i) && es[..|es| - 1][i] == es[i]
    {
      ActsEarlier(s, es, i);
    }
  }

  lemma NoneEarlier(s: Machine, es: seq<Event>, since: nat)
    requires es != []
    ensures NoDrain(s, es[..|es| - 1], since, |es| - 1) ==>
      NoDrain(s, es, since, |es| - 1) && (DrainsAt(s, es, |es| - 1) || NoDrain(s, es, since, |es|))
    ensures NoListing(s, es[..|es| - 1], since, |es| - 1) ==>
      NoListing(s, es, since, |es| - 1) && (ListsAt(s, es, |es| - 1) || NoListing(s, es, since, |es|))
  {
    hide ListsAt, DrainsAt;
    forall i | since <= i < |es| - 1
      ensures ListsAt(s, es[..|es| - 1], i) == ListsAt(s, es, i) && DrainsAt(s, es[..|es| - 1], i) == DrainsAt(s, es, i)
    {
      ActsEarlier(s, es, i);
    }
  }

  lemma PendingMoves(s: Machine, es: seq<Event>, since: nat)
    requires es != [] && Recorded(Run(s, es[..|es| - 1]))
    requires Pending(s, es[..|es| - 1], since, Run(s, es[..|es| - 1]))
    requires !DrainsAt(s, es, |es| - 1)
    ensures Pending(s, es, since, Run(s, es))
  {
    var n := |es| - 1;
    var before, after := Run(s, es[..n]), Run(s, es);
    StepRecords(before, es[n]);
    hide Lists, Drains, Step;
    assert ListsAt(s, es, n) == Lists(before, es[n]) && DrainsAt(s, es, n) == Drains(before, es[n]);
    NoneEarlier(s, es, since);
    hide ListsAt, DrainsAt, NoListing, NoDrain, Run, Opens;
    if before.listedAt.Some? {
      var j: nat :| Opens(s, es[..n], since, j, before);
      OpensLater(s, es, since, j, before, after);
    } else if ListsAt(s, es, n) {
      assert Opens(s, es, since, n, after) by { OpensNow(s, es, since, after); }
    }
  }

  lemma OpensNow(s: Machine, es: seq<Event>, since: nat, now: Machine)
    requires es != [] && since < |es| && ListsAt(s, es, |es| - 1) && NoListing(s, es, since, |es| - 1)
    requires es[|es| - 1].Update?
    requires now.listedAt == Some(es[|es| - 1].tick.stamped) && now.price == PriceOf(es[|es| - 1].tick.price)
    ensures Opens(s, es, since, |es| - 1, now)
  {
    hide ListsAt;
  }

  /** A drain closes the pending span. */
  lemma DrainAccounts(s: Machine, es: seq<Event>, spans: seq<Span>, sessions: seq<Session>) returns (opening: nat)
    requires es != [] && |spans| == |sessions|
    requires Recorded(Run(s, es[..|es| - 1]))
    requires Pending(s, es[..|es| - 1], After(spans, |spans|), Run(s, es[..|es| - 1]))
    requires DrainsAt(s, es, |es| - 1) && Run(s, es[..|es| - 1]).sessions == sessions
    ensures |Run(s, es).sessions| == |spans| + 1
    ensures Accounts(s, es, spans + [Span(opening, |es| - 1)], Run(s, es).sessions, |spans|)
    ensures Pending(s, es, |es|, Run(s, es))
  {
    var n := |es| - 1;
    var before := Run(s, es[..n]);
    var since := After(spans, |spans|);
    StepRecords(before, es[n]);
    hide Lists, Drains, Step;
    assert es[n].Update? && Run(s, es).listedAt == None;
    NoneEarlier(s, es, since);
    hide ListsAt, DrainsAt;
    opening :| Opens(s, es[..n], since, opening, before);
    OpensLater(s, es, since, opening, before, before);
    assert After(spans + [Span(opening, n)], |spans|) == since;
    hide After, Run;
  }

  lemma AccountsStay(s: Machine, es: seq<Event>, spans: seq<Span>, sessions: seq<Session>, x: Span, y: Session, k: nat)
    requires k < |spans| == |sessions| && Accounts(s, es, spans, sessions, k)
    ensures Accounts(s, es, spans + [x], sessions + [y], k)
  {
    hide FirstListing, DrainsAt;
    assert After(spans + [x], k) == After(spans, k);
  }

  /** Every session in the log, after any run, is the span from the first listing since the
      drain before it to the next drain, however often the machine was re-listed in between;
      each drain logs one; and a start is on record exactly if there has been a listing
      since the last drain. */
  lemma {:induction false} SessionAccount(s: Machine, es: seq<Event>) returns (spans: seq<Span>)
    requires Started(s)
    ensures |spans| == |Run(s, es).sessions|
    ensures forall k :: 0 <= k < |spans| ==> Accounts(s, es, spans, Run(s, es).sessions, k)
    ensures Pending(s, es, After(spans, |spans|), Run(s, es))
    ensures Recorded(Run(s, es))
  {
    spans := [];
    if es != [] {
      var n := |es| - 1;
      var before := Run(s, es[..n]);
      var earlier := SessionAccount(s, es[..n]);
      StepRecords(before, es[n]);
      hide Accounts, Pending, Step, Lists, Drains, Recorded;
      forall k | 0 <= k < |earlier| ensures Accounts(s, es, earlier, before.sessions, k) {
        AccountsLater(s, es, earlier, before.sessions, k);
      }
      if DrainsAt(s, es, n) {
        var opening := DrainAccounts(s, es, earlier, before.sessions);
        spans := earlier + [Span(opening, n)];
        var sessions := Run(s, es).sessions;
        forall k | 0 <= k < |earlier| ensures Accounts(s, es, spans, sessions, k) {
          AccountsStay(s, es, earlier, before.sessions, Span(opening, n), sessions[|earlier|], k);
        }
      } else {
        PendingMoves(s, es, After(earlier, |earlier|));
        spans := earlier;
      }
    }
  }

  // ---- order and total time -----------------------------------------------------------

  function Clock(e: Event, before: int): int {
    if e.Update? then e.tick.stamped else before
  }

  /** One clock that never runs backwards, read twice a tick. */
  predicate Monotone(es: seq<Event>, from: int) {
    es == [] || (Monotone(es[..|es| - 1], from)
      && (es[|es| - 1].Update? ==> Now(es[..|es| - 1], from) <= es[|es| - 1].tick.checked <= es[|es| - 1].tick.stamped))
  }

  function Now(es: seq<Event>, from: int): int {
    if es == [] then from else Clock(es[|es| - 1], Now(es[..|es| - 1], from))
  }

  function Total(sessions: seq<Session>): int {
    if sessions == [] then 0
    else Total(sessions[..|sessions| - 1]) + sessions[|sessions| - 1].stop - sessions[|sessions| - 1].start
  }

  function LastStop(sessions: seq<Session>, from: int): int {
    if sessions == [] then from else sessions[|sessions| - 1].stop
  }

  /** Sessions run forwards, one after the other, starting no earlier than `from`. */
  predicate InOrder(sessions: seq<Session>, from: int) {
    forall k :: 0 <= k < |sessions| ==> LastStop(sessions[..k], from) <= sessions[k].start <= sessions[k].stop
  }

  /** Under a monotone clock the logged sessions are ordered and disjoint, and with the
      session still open they never claim more than the time that has passed. */
  lemma {:induction false} SessionsFit(s: Machine, es: seq<Event>, from: int)
    requires Started(s) && Monotone(es, from)
    ensures var r, now := Run(s, es), Now(es, from);
      && Recorded(r) && InOrder(r.sessions, from) && LastStop(r.sessions, from) <= now
      && (r.listedAt.Some? ==> LastStop(r.sessions, from) <= r.listedAt.value <= now)
      && Total(r.sessions) + (if r.listedAt.Some? then now - r.listedAt.value else 0) <= now - from
  {
    if es != [] {
      var n := |es| - 1;
      var before := Run(s, es[..n]);
      SessionsFit(s, es[..n], from);
      StepRecords(before, es[n]);
      hide Step, Recorded, Lists, Drains;
      var after := Step(before, es[n]);
      if after.sessions != before.sessions {
        assert after.sessions[..|before.sessions|] == before.sessions;
        InOrderMore(before.sessions, from, after.sessions[|before.sessions|]);
      }
    }
  }

  lemma InOrderMore(sessions: seq<Session>, from: int, x: Session)
    requires InOrder(sessions, from) && LastStop(sessions, from) <= x.start <= x.stop
    ensures InOrder(sessions + [x], from)
  {
    forall k | 0 <= k <= |sessions|
      ensures LastStop((sessions + [x])[..k], from) <= (sessions + [x])[k].start <= (sessions + [x])[k].stop
    {
      assert (sessions + [x])[..k] == sessions[..k];
    }
    assert sessions[..|sessions|] == sessions;
  }

  /** A monotone clock bounds the total by the length of the run. */
  lemma TotalNeverExceedsElapsed(s: Machine, es: seq<Event>, from: int)
    requires Started(s) && Monotone(es, from)
    ensures 0 <= Total(Run(s, es).sessions) <= Now(es, from) - from
  {
    SessionsFit(s, es, from);
    TotalIsPositive(Run(s, es).sessions, from);
  }

  lemma {:induction false} TotalIsPositive(sessions: seq<Session>, from: int)
    requires InOrder(sessions, from)
    ensures Total(sessions) >= 0
  {
    if sessions != [] {
      var n := |sessions| - 1;
      forall k | 0 <= k < n
        ensures LastStop(sessions[..n][..k], from) <= sessions[..n][k].start <= sessions[..n][k].stop
      {
        assert sessions[..n][..k] == sessions[..k];
      }
      TotalIsPositive(sessions[..n], from);
    }
  }

  // ---- estimated earnings --------------------------------------------------------------

  const PLATFORM_CUT := 0.20

  /** What the time would earn at a constant price. */
  function Worth(price: real, seconds: int): real {
    price * (seconds as real / 3600.0)
  }

  /** The payout log's estimate for one session; times are in seconds, prices per hour. */
  function Gross(x: Session): real {
    if x.price.None? then 0.0 else Worth(x.price.value, x.stop - x.start)
  }

  function Net(x: Session): real {
    Gross(x) * (1.0 - PLATFORM_CUT)
  }

  function GrossTotal(sessions: seq<Session>): real {
    if sessions == [] then 0.0 else GrossTotal(sessions[..|sessions| - 1]) + Gross(sessions[|sessions| - 1])
  }

  function NetTotal(sessions: seq<Session>): real {
    if sessions == [] then 0.0 else NetTotal(sessions[..|sessions| - 1]) + Net(sessions[|sessions| - 1])
  }

  /** The estimate of one session: its price for each hour of it before the platform's fifth,
      and nothing where no price was to be had. */
  lemma EstimateExactly(x: Session)
    ensures x.price.Some? ==> 3600.0 * Gross(x) == x.price.value * (x.stop - x.start) as real
    ensures x.price == None ==> Gross(x) == 0.0
    ensures Net(x) == 0.8 * Gross(x)
  {
    if x.price.Some? {
      var hours := (x.stop - x.start) as real / 3600.0;
      assert 3600.0 * (x.price.value * hours) == x.price.value * (3600.0 * hours);
    }
  }

  /** Times and estimates of a log are the sums over its sessions. */
  lemma {:induction false} TotalsAdd(a: seq<Session>, b: seq<Session>, x: Session)
    ensures Total(a + b) == Total(a) + Total(b) && Total([x]) == x.stop - x.start
    ensures GrossTotal(a + b) == GrossTotal(a) + GrossTotal(b) && GrossTotal([x]) == Gross(x)
    ensures NetTotal(a + b) == NetTotal(a) + NetTotal(b) && NetTotal([x]) == Net(x)
  {
    hide Gross, Net;
    if b == [] {
      assert a + b == a;
    } else {
      var n := |b| - 1;
      TotalsAdd(a, b[..n], x);
      assert (a + b)[..|a| + n] == a + b[..n];
    }
  }

  predicate PriceIn(price: Option<real>, top: real) {
    price.Some? ==> 0.0 <= price.value <= top
  }

  predicate PricesIn(es: seq<Event>, top: real) {
    forall i :: 0 <= i < |es| && es[i].Update? ==> PriceIn(PriceOf(es[i].tick.price), top)
  }

  lemma ProductBounds(x: real, y: real, top: real)
    requires 0.0 <= x <= top && 0.0 <= y
    ensures 0.0 <= x * y <= top * y
  {
    assert (top - x) * y >= 0.0;
  }

  lemma GrossBounds(x: Session, top: real)
    requires x.start <= x.stop && PriceIn(x.price, top) && top >= 0.0
    ensures 0.0 <= Gross(x) <= Worth(top, x.stop - x.start)
  {
    var hours := (x.stop - x.start) as real / 3600.0;
    ProductBounds(if x.price.Some? then x.price.value else 0.0, hours, top);
  }

  lemma {:induction false} TotalBounds(sessions: seq<Session>, top: real)
    requires forall k :: 0 <= k < |sessions| ==>
      sessions[k].start <= sessions[k].stop && PriceIn(sessions[k].price, top)
    requires top >= 0.0
    ensures 0.0 <= NetTotal(sessions) <= GrossTotal(sessions) <= Worth(top, Total(sessions))
    ensures NetTotal(sessions) == GrossTotal(sessions) * (1.0 - PLATFORM_CUT)
  {
    hide PriceIn;
    if sessions != [] {
      var n := |sessions| - 1;
      TotalBounds(sessions[..n], top);
      GrossBounds(sessions[n], top);
      hide Gross;
      var x, y := Total(sessions[..n]) as real / 3600.0, (sessions[n].stop - sessions[n].start) as real / 3600.0;
      assert Total(sessions) as real / 3600.0 == x + y;
      assert top * (x + y) == top * x + top * y;
    }
  }

  lemma SessionPrices(s: Machine, es: seq<Event>, top: real)
    requires Started(s)
    requires PricesIn(es, top)
    ensures forall k :: 0 <= k < |Run(s, es).sessions| ==> PriceIn(Run(s, es).sessions[k].price, top)
  {
    var sessions := Run(s, es).sessions;
    var spans := SessionAccount(s, es);
    hide Run, PriceIn, Pending, Recorded, FirstListing, NoDrain, DrainsAt;
    forall k | 0 <= k < |sessions| ensures PriceIn(sessions[k].price, top) {
      assert Accounts(s, es, spans, sessions, k);
      assert es[spans[k].opening].Update?;
    }
  }

  lemma TotalMonotone(a: int, b: int, top: real)
    requires 0 <= a <= b && top >= 0.0
    ensures Worth(top, a) <= Worth(top, b)
  {
    var x, y := a as real / 3600.0, b as real / 3600.0;
    assert top * (y - x) >= 0.0;
  }

  /** If the marketplace never shows a price above `top`, a whole run's estimated earnings
      never exceed that price over the time that has passed. */
  lemma EarningsAreBounded(s: Machine, es: seq<Event>, from: int, top: real)
    requires Started(s) && Monotone(es, from) && top >= 0.0
    requires PricesIn(es, top)
    ensures var sessions := Run(s, es).sessions;
      0.0 <= NetTotal(sessions) <= GrossTotal(sessions) <= Worth(top, Now(es, from) - from)
  {
    SessionPrices(s, es, top);
    TotalNeverExceedsElapsed(s, es, from);
    SessionsFit(s, es, from);
    var sessions := Run(s, es).sessions;
    hide *;
    TotalBounds(sessions, top) by {
      forall k | 0 <= k < |sessions| ensures sessions[k].start <= sessions[k].stop && PriceIn(sessions[k].price, top) {
        InOrderAt(sessions, from, k);
      }
    }
    TotalMonotone(Total(sessions), Now(es, from) - from, top);
  }

  lemma InOrderAt(sessions: seq<Session>, from: int, k: nat)
    requires InOrder(sessions, from) && k < |sessions|
    ensures sessions[k].start <= sessions[k].stop
  {}

  // ---- the marketplace -----------------------------------------------------------------

  /** Listed exactly while the offer is up. */
  predicate Agrees(s: Machine) {
    s.phase == Listed <==> s.offer
  }

  /** The event's call reached the marketplace. */
  predicate Reaches(s: Machine, e: Event) {
    (ListCall(s, e) || UnlistCall(s, e)) && e.tick.reply != Failed && e.tick.reply != Raised(false)
  }

  predicate ReachesAt(s: Machine, es: seq<Event>, k: int) {
    0 <= k < |es| && Reaches(Run(s, es[..k]), es[k])
  }

  ghost predicate NoneReaches(s: Machine, es: seq<Event>, from: int) {
    forall j :: from <= j < |es| ==> !ReachesAt(s, es, j)
  }

  /** The last call that reached the marketplace is that of event `k`. */
  ghost predicate LastReach(s: Machine, es: seq<Event>, k: int) {
    ReachesAt(s, es, k) && NoneReaches(s, es, k + 1)
  }

  /** A call that reaches the marketplace brings agreement if and only if its reply says so;
      any other step leaves matters as they were. */
  lemma StepAgrees(s: Machine, e: Event)
    ensures Agrees(Step(s, e)) <==> if Reaches(s, e) then e.tick.reply == Done else Agrees(s)
  {}

  /** The offer is up after a listing that reached the marketplace, down after an unlisting that
      did, and otherwise as it was. */
  lemma OfferFollows(s: Machine, e: Event)
    ensures Step(s, e).offer <==> if Reaches(s, e) then s.phase != Listed else s.offer
  {}

  /** A tick raises exactly if a listing call raised (the machine is then left in between), an
      unlisting call did, the price of a newly opened session could not even be asked, or the
      renters of an unwanted draining machine could not. */
  lemma RaisesExactly(s: Machine, t: Tick)
    ensures !s.enabled ==> !Raises(s, Update(t)) && UpdateStep(s, t) == s
    ensures var after := UpdateStep(s, t);
      s.enabled ==> (Raises(s, Update(t)) <==>
        || after.phase == Listing
        || (s.phase == Listed && !Wanted(s, t) && t.reply.Raised?)
        || (s.listedAt == None && after.listedAt.Some? && t.price == PriceRaised)
        || (s.phase == Unlisting && !Wanted(s, t) && t.rentals == QueryRaised))
  {
    hide Wanted;
  }

  lemma ReachesEarlier(s: Machine, es: seq<Event>, j: int)
    requires 0 <= j < |es| - 1
    ensures ReachesAt(s, es[..|es| - 1], j) == ReachesAt(s, es, j)
    ensures es[..|es| - 1][j] == es[j]
  {
    assert es[..|es| - 1][..j] == es[..j];
  }

  lemma QuietStep(s: Machine, es: seq<Event>)
    requires es != [] && !ReachesAt(s, es, |es| - 1)
    ensures NoneReaches(s, es[..|es| - 1], 0) == NoneReaches(s, es, 0)
    ensures forall k :: LastReach(s, es[..|es| - 1], k) <==> LastReach(s, es, k)
  {
    var n := |es| - 1;
    forall j ensures ReachesAt(s, es[..n], j) == ReachesAt(s, es, j) {
      if 0 <= j < n {
        ReachesEarlier(s, es, j);
      }
    }
    hide ReachesAt;
    assert forall from: int :: NoneReaches(s, es[..n], from) ==> NoneReaches(s, es, from);
    assert forall from: int :: NoneReaches(s, es, from) ==> NoneReaches(s, es[..n], from);
  }

  /** The last call that reached the marketplace was heard to have worked. */
  ghost predicate LastHeard(s: Machine, es: seq<Event>) {
    exists k :: LastReach(s, es, k) && es[k].tick.reply == Done
  }

  /** After any run from any state, the provider agrees with the marketplace if and only if the
      last call that reached it was heard to have worked; without one, if and only if it agreed
      to begin with. So the next call that works and is heard heals every disagreement. */
  lemma {:induction false} AgreesExactly(s: Machine, es: seq<Event>)
    ensures Agrees(Run(s, es)) <==> LastHeard(s, es) || (NoneReaches(s, es, 0) && Agrees(s))
  {
    if es != [] {
      var n := |es| - 1;
      var before := Run(s, es[..n]);
      AgreesExactly(s, es[..n]);
      StepAgrees(before, es[n]);
      assert Run(s, es) == Step(before, es[n]) && (ReachesAt(s, es, n) <==> Reaches(before, es[n]));
      hide Run, Step, Reaches, Agrees;
      if ReachesAt(s, es, n) {
        assert LastReach(s, es, n);
        assert forall k :: LastReach(s, es, k) ==> k == n;
      } else {
        QuietStep(s, es);
      }
    }
  }

  /** Every call is heard right, and none raises. */
  predicate Faithful(es: seq<Event>) {
    forall i :: 0 <= i < |es| && es[i].Update? ==> es[i].tick.reply == Done || es[i].tick.reply == Failed
  }

  /** With a faithful CLI the provider is listed exactly when the offer is up, and never left
      in the transient state. */
  lemma {:induction false} ListedIsOffered(s: Machine, es: seq<Event>)
    requires Started(s) && !s.offer && Faithful(es)
    ensures Recorded(Run(s, es)) && Run(s, es).phase != Listing
    ensures Run(s, es).phase == Listed <==> Run(s, es).offer
  {
    if es != [] {
      var n := |es| - 1;
      assert Faithful(es[..n]);
      ListedIsOffered(s, es[..n]);
      StepRecords(Run(s, es[..n]), es[n]);
      StepAgrees(Run(s, es[..n]), es[n]);
      StepTransient(Run(s, es[..n]), es[n]);
      hide Step, ListCall, UnlistCall, Recorded;
    }
  }

  lemma StepTransient(s: Machine, e: Event)
    requires s.enabled
    ensures Step(s, e).phase == Listing <==>
      if e.Update? then ListCall(s, e) && e.tick.reply.Raised? else s.phase == Listing
  {}

  /** The last tick is that of event `k`, and its listing call raised. */
  ghost predicate DiedListing(s: Machine, es: seq<Event>, k: int) {
    && 0 <= k < |es| && ListCall(Run(s, es[..k]), es[k]) && es[k].tick.reply.Raised?
    && forall j :: k < j < |es| ==> es[j].SetOverride?
  }

  /** The transient state outlasts a tick if and only if the listing call of the last tick
      raised, which is the end of the agent. */
  lemma {:induction false} LeftInListing(s: Machine, es: seq<Event>)
    requires s.enabled && s.phase != Listing
    ensures Run(s, es).enabled
    ensures Run(s, es).phase == Listing <==> exists k :: DiedListing(s, es, k)
  {
    if es != [] {
      var n := |es| - 1;
      LeftInListing(s, es[..n]);
      StepTransient(Run(s, es[..n]), es[n]);
      hide Step, ListCall;
      forall k | 0 <= k < n ensures es[..n][..k] == es[..k] && es[..n][k] == es[k] {}
      if es[n].SetOverride? {
        if k :| DiedListing(s, es[..n], k) {
          assert DiedListing(s, es, k);
        }
        if k :| DiedListing(s, es, k) {
          assert DiedListing(s, es[..n], k);
        }
      } else if ListCall(Run(s, es[..n]), es[n]) && es[n].tick.reply.Raised? {
        assert DiedListing(s, es, n);
      }
    }
  }

  // ---- coming to rest ---------------------------------------------------------------------

  /** How many successful ticks the machine is from rest. */
  function Rank(p: Phase): nat {
    match p
    case Unlisted => 0
    case Unlisting => 1
    case Listed => 2
    case Listing => 3
  }

  /** Ticks that want the machine off, from a schedule that stays closed. */
  predicate Unwanted(s: Machine, es: seq<Event>) {
    forall i :: 0 <= i < |es| ==> es[i].Update? && !Wanted(s, es[i].tick)
  }

  /** The answer to the renter query shows none: an empty list, or JSON of an unforeseen shape. */
  predicate FindsNone(r: RentalReply) {
    r == ListOf(0) || r == Instances(0) || r == OtherShape
  }

  /** A tick leaves a draining machine that nobody wants exactly as it was if the answer lists
      renters, or there is none to be had; otherwise it unlists it and logs the session. */
  lemma DrainsExactly(s: Machine, t: Tick)
    requires s.enabled && s.phase == Unlisting && !Wanted(s, t)
    ensures UpdateStep(s, t) == s <==>
      match t.rentals
      case QueryFailed => true
      case Uncountable => true
      case QueryRaised => true
      case ListOf(n) => n > 0
      case Instances(n) => n > 0
      case OtherShape => false
    ensures UpdateStep(s, t) != s ==>
      UpdateStep(s, t) == s.(phase := Unlisted, listedAt := None, price := None,
        sessions := if s.listedAt == None then s.sessions
                    else s.sessions + [Session(s.listedAt.value, t.stamped, s.price)])
  {}

  predicate Cooperative(es: seq<Event>) {
    forall i :: 0 <= i < |es| ==> es[i].Update? && es[i].tick.reply == Done && FindsNone(es[i].tick.rentals)
  }

  lemma StepWants(s: Machine, e: Event, t: Tick)
    requires e.Update?
    ensures Wanted(Step(s, e), t) == Wanted(s, t)
  {}

  lemma {:induction false} RunWants(s: Machine, es: seq<Event>, t: Tick)
    requires forall i :: 0 <= i < |es| ==> es[i].Update?
    ensures Wanted(Run(s, es), t) == Wanted(s, t) && Run(s, es).enabled == s.enabled
  {
    hide Wanted;
    if es != [] {
      RunWants(s, es[..|es| - 1], t);
      StepWants(Run(s, es[..|es| - 1]), es[|es| - 1], t);
    }
  }

  /** Each unwanted tick that goes well takes the machine one rank down. */
  lemma TickDescends(s: Machine, t: Tick)
    requires s.enabled && !Wanted(s, t) && t.reply == Done && FindsNone(t.rentals)
    ensures Rank(UpdateStep(s, t).phase) == if s.phase == Unlisted then 0 else Rank(s.phase) - 1
  {}

  /** A steady wish to unlist with working calls and no renters: unlisted within the rank of
      where the machine stood, which is two ticks from listed, and it stays so. */
  lemma {:induction false} ComesToRest(s: Machine, es: seq<Event>)
    requires s.enabled && Unwanted(s, es) && Cooperative(es)
    ensures Rank(Run(s, es).phase) == if Rank(s.phase) <= |es| then 0 else Rank(s.phase) - |es|
  {
    if es != [] {
      var n := |es| - 1;
      ComesToRest(s, es[..n]);
      RunWants(s, es[..n], es[n].tick);
      hide Wanted, Run;
      TickDescends(Run(s, es[..n]), es[n].tick);
    }
  }

  /** One wanted tick with a working CLI lists the machine from wherever it stood. */
  lemma OneTickLists(s: Machine, t: Tick)
    requires s.enabled && Wanted(s, t) && t.reply == Done
    ensures UpdateStep(s, t).phase == Listed
  {}

  /** The operator's override beats every schedule: forced off, the machine is unlisted
      within its rank; forced on, it is listed from the first tick. */
  lemma {:induction false} OverrideWins(s: Machine, es: seq<Event>)
    requires s.enabled && Cooperative(es) && es != []
    ensures var off := Run(s.(wish := ForceUnlist), es); Rank(s.phase) <= |es| ==> off.phase == Unlisted
    ensures Run(s.(wish := ForceList), es).phase == Listed
  {
    var off := s.(wish := ForceUnlist);
    assert Unwanted(off, es);
    ComesToRest(off, es);
    var n := |es| - 1;
    var on := s.(wish := ForceList);
    RunKeepsWish(on, es[..n]);
    hide Run;
    OneTickLists(Run(on, es[..n]), es[n].tick);
  }

  lemma {:induction false} RunKeepsWish(s: Machine, es: seq<Event>)
    requires forall i :: 0 <= i < |es| ==> es[i].Update?
    ensures Run(s, es).wish == s.wish && Run(s, es).enabled == s.enabled
  {
    if es != [] {
      RunKeepsWish(s, es[..|es| - 1]);
      hide Wanted;
    }
  }

  /** An unlisted machine that nobody wants listed makes no call at all. So an offer left up
      by an earlier agent life, or by an unheard reply, is never taken down. */
  lemma {:induction false} RestMakesNoCalls(s: Machine, es: seq<Event>)
    requires s.phase == Unlisted && Unwanted(s, es)
    ensures Run(s, es) == s
  {
    if es != [] {
      RestMakesNoCalls(s, es[..|es| - 1]);
      hide Wanted;
    }
  }

  /** Every renter query lists renters or comes to nothing. */
  predicate NeverNone(es: seq<Event>) {
    forall i :: 0 <= i < |es| && es[i].Update? ==> !FindsNone(es[i].tick.rentals)
  }

  /** A draining machine that nobody wants keeps draining, untouched, exactly while every
      query lists renters or comes to nothing; then it is unlisted. (JSON of an unforeseen
      shape counts as no renters and ends the drain.) */
  lemma {:induction false} RentersAreWaitedFor(s: Machine, es: seq<Event>)
    requires s.enabled && s.phase == Unlisting && Unwanted(s, es)
    ensures if NeverNone(es) then Run(s, es) == s else Run(s, es).phase == Unlisted
  {
    if es != [] {
      var n := |es| - 1;
      RentersAreWaitedFor(s, es[..n]);
      RunWants(s, es[..n], es[n].tick);
      hide Wanted;
      assert es == es[..n] + [es[n]];
      assert NeverNone(es) <==> NeverNone(es[..n]) && !FindsNone(es[n].tick.rentals);
    }
  }

  // ---- unlisted, but not drained -----------------------------------------------------------

  /** Off the market by its own account, with the start of a session still on record. */
  predicate Undrained(s: Machine) {
    (s.phase == Unlisted || s.phase == Listing) && s.listedAt.Some?
  }

  /** A draining machine is wanted again, and listing it fails. */
  predicate RelistFails(s: Machine, e: Event) {
    s.phase == Unlisting && ListCall(s, e) && e.tick.reply != Done
  }

  predicate RelistFailsAt(s: Machine, es: seq<Event>, k: int) {
    0 <= k < |es| && RelistFails(Run(s, es[..k]), es[k])
  }

  /** Listing again failed at `k`, and no listing has worked since. */
  ghost predicate Abandoned(s: Machine, es: seq<Event>, k: int) {
    RelistFailsAt(s, es, k) && NoListing(s, es, k, |es|)
  }

  lemma StepUndrained(s: Machine, e: Event)
    requires Recorded(s)
    ensures Undrained(Step(s, e)) <==> RelistFails(s, e) || (Undrained(s) && !Lists(s, e))
    ensures RelistFails(s, e) ==> !Lists(s, e)
  {}

  lemma {:induction false} RunRecords(s: Machine, es: seq<Event>)
    requires Recorded(s)
    ensures Recorded(Run(s, es))
  {
    if es != [] {
      RunRecords(s, es[..|es| - 1]);
      StepRecords(Run(s, es[..|es| - 1]), es[|es| - 1]);
      hide Step;
    }
  }

  lemma AbandonedEarlier(s: Machine, es: seq<Event>, k: int)
    requires es != [] && 0 <= k < |es| - 1
    ensures Abandoned(s, es, k) <==> Abandoned(s, es[..|es| - 1], k) && !ListsAt(s, es, |es| - 1)
  {
    var n := |es| - 1;
    assert es[..n][..k] == es[..k];
    forall j | 0 <= j < n ensures ListsAt(s, es[..n], j) == ListsAt(s, es, j) {
      ActsEarlier(s, es, j);
    }
    assert RelistFailsAt(s, es[..n], k) == RelistFailsAt(s, es, k);
    hide ListsAt, RelistFailsAt;
    assert NoListing(s, es, k, n + 1) <==> NoListing(s, es[..n], k, n) && !ListsAt(s, es, n);
  }

  /** The machine ends off the market without its drain if and only if listing it again failed
      while it drained and no listing has worked since. Nobody asks any more how many renters
      are left, and the start stays on record until the drain after the next listing. */
  lemma {:induction false} UnlistedIsNotDrained(s: Machine, es: seq<Event>)
    requires Started(s)
    ensures Undrained(Run(s, es)) <==> exists k :: Abandoned(s, es, k)
  {
    if es != [] {
      var n := |es| - 1;
      var before := Run(s, es[..n]);
      UnlistedIsNotDrained(s, es[..n]);
      RunRecords(s, es[..n]);
      StepUndrained(before, es[n]);
      assert RelistFailsAt(s, es, n) <==> RelistFails(before, es[n]);
      assert ListsAt(s, es, n) <==> Lists(before, es[n]);
      hide Undrained, RelistFails, Lists, Step, ListsAt;
      forall k | 0 <= k < n
        ensures Abandoned(s, es, k) <==> Abandoned(s, es[..n], k) && !ListsAt(s, es, n)
      {
        AbandonedEarlier(s, es, k);
      }
      assert Run(s, es) == Step(before, es[n]);
      hide Run;
      assert Abandoned(s, es, n) <==> RelistFailsAt(s, es, n) && !ListsAt(s, es, n);
    }
  }

  /** Such a run: the renter is in throughout, the machine is listed, unlisted, wanted again,
      and the call fails. */
  lemma UnlistedWithRenters()
    ensures exists s: Machine, es: seq<Event> :: (
      Started(s) && Faithful(es) && Run(s, es).phase == Unlisted && Run(s, es).listedAt.Some?
      && (forall i :: 0 <= i < |es| && es[i].Update? ==> es[i].tick.rentals == ListOf(1)))
  {
    var s := Machine(true, 10, Unlisted, None, None, FollowSchedule, [], false);
    var list := Update(Tick(true, None, 0, 0, Done, ListOf(1), NoPrice));
    var unlist := Update(Tick(false, None, 1, 1, Done, ListOf(1), NoPrice));
    var relist := Update(Tick(true, None, 2, 2, Failed, ListOf(1), NoPrice));
    var es := [list, unlist, relist];
    assert es[..2] == [list, unlist] && es[..2][..1] == [list] && es[..1] == [list] && [list][..0] == [];
    assert Run(s, [list]) == Step(s, list);
    assert Run(s, [list, unlist]) == Step(Step(s, list), unlist);
    assert Run(s, es).phase == Unlisted && Run(s, es).listedAt.Some?;
  }
}
