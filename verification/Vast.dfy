/** The Vast.AI listing state machine. One `Update` per poller tick; what the CLI answers and
    what the clock shows are given with the tick. */
module Vast {
  import opened Text

  datatype Phase = Unlisted | Listing | Listed | Unlisting
  datatype Override = FollowSchedule | ForceList | ForceUnlist

  /** What became of a `vastai set machine` call: it worked, it failed, it worked but the CLI
      timed out or exited with an error, or running the CLI raised (it may not be executed,
      its output does not decode), whether or not the call took effect by then. */
  datatype Reply = Done | Failed | DoneUnheard | Raised(applied: bool)

  predicate TakesEffect(r: Reply) {
    r == Done || r == DoneUnheard || r == Raised(true)
  }

  /** What asking for the renters came to: an error exit, output that is not JSON or has
      nothing to count, a list, an object with instances, JSON of any other shape, or an
      exception. */
  datatype RentalReply = QueryFailed | Uncountable | ListOf(n: nat) | Instances(n: nat) | OtherShape | QueryRaised

  /** Fewer than zero: reported unknown. */
  function RentalCount(r: RentalReply): int {
    match r
    case ListOf(n) => n
    case Instances(n) => n
    case OtherShape => 0
    case _ => -1
  }

  datatype PriceReply = Price(perHour: real) | NoPrice | PriceRaised

  function PriceOf(r: PriceReply): Option<real> {
    if r.Price? then Some(r.perHour) else None
  }

  datatype Session = Session(start: int, stop: int, price: Option<real>)

  /** One poller tick: the fetched schedule, the clock at the near-window test and at the
      stamp, and what the CLI would answer to each call. */
  datatype Tick = Tick(shouldList: bool, nextStart: Option<int>, checked: int, stamped: int,
                       reply: Reply, rentals: RentalReply, price: PriceReply)

  datatype Event = Update(tick: Tick) | SetOverride(wish: Override)

  datatype Machine = Machine(
    enabled: bool, preList: int,
    phase: Phase, listedAt: Option<int>, price: Option<real>, wish: Override,
    sessions: seq<Session>,
    offer: bool)                // the marketplace's side: is the offer up

  predicate NearWindow(nextStart: Option<int>, now: int, preList: int) {
    nextStart.Some? && 0 <= nextStart.value - now <= preList
  }

  predicate Wanted(s: Machine, t: Tick) {
    match s.wish
    case ForceList => true
    case ForceUnlist => false
    case FollowSchedule => t.shouldList || NearWindow(t.nextStart, t.checked, s.preList)
  }

  function ListStep(s: Machine, t: Tick): Machine {
    var offer := TakesEffect(t.reply) || s.offer;
    if t.reply.Raised? then s.(phase := Listing, offer := offer)
    else if t.reply != Done then s.(phase := Unlisted, offer := offer)
    else if s.listedAt.Some? then s.(phase := Listed, offer := offer)
    else s.(phase := Listed, offer := offer, listedAt := Some(t.stamped),
            price := if t.price.PriceRaised? then s.price else PriceOf(t.price))
  }

  function UnlistStep(s: Machine, t: Tick): Machine {
    s.(phase := if t.reply == Done then Unlisting else s.phase, offer := !TakesEffect(t.reply) && s.offer)
  }

  function DrainStep(s: Machine, t: Tick): Machine {
    if RentalCount(t.rentals) != 0 then s else
      s.(phase := Unlisted, listedAt := None, price := None,
         sessions := s.sessions
           + if s.listedAt.Some? then [Session(s.listedAt.value, t.stamped, s.price)] else [])
  }

  function UpdateStep(s: Machine, t: Tick): Machine {
    if !s.enabled then s
    else match s.phase
      case Unlisted => if Wanted(s, t) then ListStep(s, t) else s
      case Listed => if Wanted(s, t) then s else UnlistStep(s, t)
      case Unlisting => if Wanted(s, t) then ListStep(s, t) else DrainStep(s, t)
      case Listing => ListStep(s, t)
  }

  /** The event calls the CLI to list the machine. */
  predicate ListCall(s: Machine, e: Event) {
    e.Update? && s.enabled && s.phase != Listed && (s.phase == Listing || Wanted(s, e.tick))
  }

  predicate UnlistCall(s: Machine, e: Event) {
    e.Update? && s.enabled && s.phase == Listed && !Wanted(s, e.tick)
  }

  predicate ListRaises(s: Machine, t: Tick) {
    t.reply.Raised? || (t.reply == Done && s.listedAt == None && t.price.PriceRaised?)
  }

  /** An exception leaves the tick, which ends the agent. */
  predicate Raises(s: Machine, e: Event) {
    || (ListCall(s, e) && ListRaises(s, e.tick))
    || (UnlistCall(s, e) && e.tick.reply.Raised?)
    || (e.Update? && s.enabled && s.phase == Unlisting && !Wanted(s, e.tick) && e.tick.rentals == QueryRaised)
  }

  function Step(s: Machine, e: Event): Machine {
    match e
    case Update(t) => UpdateStep(s, t)
    case SetOverride(wish) => s.(wish := wish)
  }

  function Run(s: Machine, es: seq<Event>): Machine {
    if es == [] then s else Step(Run(s, es[..|es| - 1]), es[|es| - 1])
  }

  class VastProvider {
    const enabled: bool
    const preList: int
    var phase: Phase
    var listedAt: Option<int>
    var listingPrice: Option<real>
    var wish: Override
    var sessions: seq<Session>
    ghost var offer: bool

    ghost function Contents(): Machine
      reads this
    {
      Machine(enabled, preList, phase, listedAt, listingPrice, wish, sessions, offer)
    }

    constructor (enabled: bool, preList: int)
      ensures Contents() == Machine(enabled, preList, Unlisted, None, None, FollowSchedule, [], false)
    {
      this.enabled, this.preList := enabled, preList;
      phase, listedAt, listingPrice, wish, sessions, offer := Unlisted, None, None, FollowSchedule, [], false;
    }

    method SetOverride(wish: Override)
      modifies this`wish
      ensures Contents() == Step(old(Contents()), Event.SetOverride(wish))
    {
      this.wish := wish;
    }

    method DoList(t: Tick) returns (raised: bool)
      modifies this
      ensures Contents() == ListStep(old(Contents()), t)
      ensures raised == ListRaises(old(Contents()), t)
    {
      phase := Listing;
      offer := TakesEffect(t.reply) || offer;
      if t.reply.Raised? {
        return true;
      }
      if t.reply == Done {
        phase := Listed;
        if listedAt == None {
          listedAt := Some(t.stamped);
          if t.price.PriceRaised? {
            return true;
          }
          listingPrice := PriceOf(t.price);
        }
      } else {
        phase := Unlisted;
      }
      raised := false;
    }

    method DoUnlist(t: Tick) returns (raised: bool)
      modifies this`phase, this`offer
      ensures Contents() == UnlistStep(old(Contents()), t)
      ensures raised == t.reply.Raised?
    {
      offer := !TakesEffect(t.reply) && offer;
      if t.reply == Done {
        phase := Unlisting;
      }
      raised := t.reply.Raised?;
    }

    method Update(t: Tick) returns (raised: bool)
      modifies this
      ensures Contents() == Step(old(Contents()), Event.Update(t))
      ensures raised == Raises(old(Contents()), Event.Update(t))
    {
      raised := false;
      if !enabled {
        return;
      }
      var nearWindow := t.nextStart.Some? && 0 <= t.nextStart.value - t.checked <= preList;
      var wantListed := t.shouldList || nearWindow;
      if wish == ForceList {
        wantListed := true;
      } else if wish == ForceUnlist {
        wantListed := false;
      }
      if phase == Unlisted {
        if wantListed {
          raised := DoList(t);
        }
      } else if phase == Listed {
        if !wantListed {
          raised := DoUnlist(t);
        }
      } else if phase == Unlisting {
        if wantListed {
          raised := DoList(t);
        } else if t.rentals == QueryRaised {
          raised := true;
        } else if RentalCount(t.rentals) == 0 {
          if listedAt.Some? {
            sessions := sessions + [Session(listedAt.value, t.stamped, listingPrice)];
          }
          listedAt, listingPrice := None, None;
          phase := Unlisted;
        }
      } else {
        raised := DoList(t);
      }
    }
  }
}
