/** What sequences of requests add up to: seats, shuttles, venues and medal scores read off the history alone. */
module Histories {
  import opened Domain
  import Semantics
  import Standings
  import DeliveryLog

  // ---- Seats ---------------------------------------------------------------

  function OwnerOf(b: Buckets, m: string, seat: string): Option<string> {
    var seats := Semantics.MatchOf(b, m).seats;
    if seat in seats then Some(seats[seat]) else None
  }

  /** A booking of this seat by a rostered user. */
  predicate Bids(ref: Roster, op: Op, m: string, seat: string) {
    op.BookTicket? && op.matchId == m && op.seatId == seat && op.userId in ref.users
  }

  /** A seat without an owner is taken by the next bid and by nothing else; an owner stays. */
  lemma {:induction false} SeatStep(ref: Roster, op: Op, b: Buckets, m: string, seat: string)
    ensures OwnerOf(Semantics.Apply(ref, op, b).buckets, m, seat) ==
            if OwnerOf(b, m, seat).None? && Bids(ref, op, m, seat) then Some(op.userId) else OwnerOf(b, m, seat)
    ensures Bids(ref, op, m, seat) ==> (IsOk(Semantics.Apply(ref, op, b).reply) <==> OwnerOf(b, m, seat).None?)
  {
    Semantics.TouchesMatches(ref, op, b);
    match op {
      case BookTicket(m', seat', user) => TicketStep(ref, b, m', seat', user, m, seat);
      case PushLiveEvent(m', e, d) => StatusKeepsOwner(b, m', e, m, seat);
      case GoLive(m', stream, d) => StatusKeepsOwner(b, m', "live", m, seat);
      case _ =>
    }
  }

  lemma StatusKeepsOwner(b: Buckets, m': string, status: string, m: string, seat: string)
    ensures OwnerOf(Semantics.SetStatus(b, m', status), m, seat) == OwnerOf(b, m, seat)
  {
    OwnerAfterPut(b, m', Semantics.MatchOf(b, m').(status := Some(status)), m, seat);
  }

  lemma TicketStep(ref: Roster, b: Buckets, m': string, seat': string, user: string, m: string, seat: string)
    ensures var e := Semantics.BookTicket(ref, b, m', seat', user);
            var bids := m' == m && seat' == seat && user in ref.users;
            && OwnerOf(e.buckets, m, seat) ==
               (if OwnerOf(b, m, seat).None? && bids then Some(user) else OwnerOf(b, m, seat))
            && (bids ==> (IsOk(e.reply) <==> OwnerOf(b, m, seat).None?))
  {
    var was := Semantics.MatchOf(b, m');
    if user in ref.users {
      if seat' in was.seats {
        OwnerAfterPut(b, m', was, m, seat);
      } else {
        OwnerAfterPut(b, m', was.(seats := was.seats[seat' := user]), m, seat);
      }
    }
  }

  lemma OwnerAfterPut(b: Buckets, m': string, entry: Match, m: string, seat: string)
    ensures OwnerOf(b.(matches := b.matches[m' := entry]), m, seat) ==
            if m' != m then OwnerOf(b, m, seat)
            else if seat in entry.seats then Some(entry.seats[seat])
            else None
  {
  }

  ghost predicate FirstBid(ref: Roster, ops: seq<Op>, m: string, seat: string, i: nat) {
    && i < |ops| && Bids(ref, ops[i], m, seat)
    && forall j :: 0 <= j < i ==> !Bids(ref, ops[j], m, seat)
  }

  ghost predicate AnyBid(ref: Roster, ops: seq<Op>, m: string, seat: string) {
    exists i :: 0 <= i < |ops| && Bids(ref, ops[i], m, seat)
  }

  lemma AnyBidGrows(ref: Roster, init: seq<Op>, op: Op, m: string, seat: string)
    ensures AnyBid(ref, init + [op], m, seat) <==> AnyBid(ref, init, m, seat) || Bids(ref, op, m, seat)
  {
    var ops := init + [op];
    if i :| 0 <= i < |init| && Bids(ref, init[i], m, seat) { assert Bids(ref, ops[i], m, seat); }
    if Bids(ref, op, m, seat) { assert Bids(ref, ops[|init|], m, seat); }
  }

  /** A seat is sold exactly when some rostered user bid for it. */
  lemma {:induction false} SoldIff(ref: Roster, ops: seq<Op>, m: string, seat: string)
    ensures OwnerOf(Semantics.Replay(ref, ops).buckets, m, seat).Some? <==> AnyBid(ref, ops, m, seat)
  {
    if ops != [] {
      var n := |ops| - 1;
      SoldIff(ref, ops[..n], m, seat);
      SeatStep(ref, ops[n], Semantics.Replay(ref, ops[..n]).buckets, m, seat);
      AnyBidGrows(ref, ops[..n], ops[n], m, seat);
      assert ops == ops[..n] + [ops[n]];
    }
  }

  lemma OwnerStays(ref: Roster, ops: seq<Op>, op: Op, m: string, seat: string)
    requires OwnerOf(Semantics.Replay(ref, ops).buckets, m, seat).Some?
    ensures OwnerOf(Semantics.Replay(ref, ops + [op]).buckets, m, seat) ==
            OwnerOf(Semantics.Replay(ref, ops).buckets, m, seat)
  {
    Semantics.ReplayExtends(ref, ops, op);
    SeatStep(ref, op, Semantics.Replay(ref, ops).buckets, m, seat);
  }

  lemma {:induction false} OwnerIsPermanent(ref: Roster, ops: seq<Op>, more: seq<Op>, m: string, seat: string)
    requires OwnerOf(Semantics.Replay(ref, ops).buckets, m, seat).Some?
    ensures OwnerOf(Semantics.Replay(ref, ops + more).buckets, m, seat)
         == OwnerOf(Semantics.Replay(ref, ops).buckets, m, seat)
  {
    if more == [] {
      assert ops + more == ops;
    } else {
      var k := |more| - 1;
      OwnerIsPermanent(ref, ops, more[..k], m, seat);
      assert ops + more == (ops + more[..k]) + [more[k]];
      OwnerStays(ref, ops + more[..k], more[k], m, seat);
    }
  }

  lemma FirstBidIsEarliest(ref: Roster, ops: seq<Op>, m: string, seat: string, i: nat)
    requires i < |ops| && Bids(ref, ops[i], m, seat)
    ensures FirstBid(ref, ops, m, seat, i) <==> !AnyBid(ref, ops[..i], m, seat)
  {
    if !FirstBid(ref, ops, m, seat, i) {
      var j :| 0 <= j < i && Bids(ref, ops[j], m, seat);
      assert ops[..i][j] == ops[j];
    }
  }

  /** A bid is accepted exactly when it is the seat's first, and then the seat is the bidder's for good. */
  lemma {:induction false} OneWinner(ref: Roster, ops: seq<Op>, m: string, seat: string, i: nat)
    requires i < |ops| && Bids(ref, ops[i], m, seat)
    ensures IsOk(Semantics.ReplyAt(ref, ops, i)) <==> FirstBid(ref, ops, m, seat, i)
    ensures FirstBid(ref, ops, m, seat, i) ==>
              OwnerOf(Semantics.Replay(ref, ops).buckets, m, seat) == Some(ops[i].userId)
  {
    FirstBidIsEarliest(ref, ops, m, seat, i);
    SoldIff(ref, ops[..i], m, seat);
    SeatStep(ref, ops[i], Semantics.Replay(ref, ops[..i]).buckets, m, seat);
    if FirstBid(ref, ops, m, seat, i) { WinnerKeepsSeat(ref, ops, m, seat, i); }
  }

  lemma WinnerKeepsSeat(ref: Roster, ops: seq<Op>, m: string, seat: string, i: nat)
    requires i < |ops| && Bids(ref, ops[i], m, seat)
    requires OwnerOf(Semantics.Replay(ref, ops[..i]).buckets, m, seat).None?
    ensures OwnerOf(Semantics.Replay(ref, ops).buckets, m, seat) == Some(ops[i].userId)
  {
    SeatStep(ref, ops[i], Semantics.Replay(ref, ops[..i]).buckets, m, seat);
    Semantics.ReplayExtends(ref, ops[..i], ops[i]);
    assert ops == (ops[..i] + [ops[i]]) + ops[i + 1..];
    OwnerIsPermanent(ref, ops[..i] + [ops[i]], ops[i + 1..], m, seat);
  }

  // ---- Shuttles ------------------------------------------------------------

  predicate Dispatches(op: Op, id: string) { op.DispatchShuttle? && op.shuttleId == id }

  /** Seats boarded by the accepted dispatches of a shuttle. */
  ghost function Boarded(ref: Roster, ops: seq<Op>, id: string): int {
    if ops == [] then 0
    else
      var n := |ops| - 1;
      Boarded(ref, ops[..n], id) +
      (if Dispatches(ops[n], id) && IsOk(Semantics.ReplyAt(ref, ops, n)) then BoardingOf(ops[n]) else 0)
  }

  predicate AcceptedAt(ref: Roster, ops: seq<Op>, id: string, i: nat)
    requires i < |ops|
  {
    Dispatches(ops[i], id) && IsOk(Semantics.ReplyAt(ref, ops, i))
  }

  ghost predicate AnyAccepted(ref: Roster, ops: seq<Op>, id: string) {
    exists i :: 0 <= i < |ops| && AcceptedAt(ref, ops, id, i)
  }

  ghost function FirstDispatch(ops: seq<Op>, id: string): Option<Op> {
    if ops == [] then None
    else
      var n := |ops| - 1;
      if FirstDispatch(ops[..n], id).Some? then FirstDispatch(ops[..n], id)
      else if Dispatches(ops[n], id) then Some(ops[n])
      else None
  }

  ghost function LastDispatch(ops: seq<Op>, id: string): Option<Op> {
    if ops == [] then None
    else if Dispatches(ops[|ops| - 1], id) then Some(ops[|ops| - 1])
    else LastDispatch(ops[..|ops| - 1], id)
  }

  lemma ShuttleStep(ref: Roster, op: Op, b: Buckets, id: string)
    ensures var e := Semantics.Apply(ref, op, b);
            if Dispatches(op, id) then
              var was := if id in b.shuttles then b.shuttles[id] else Shuttle(op.route, 0, CapacityOf(op));
              && (IsOk(e.reply) <==> was.passengers + BoardingOf(op) <= was.capacity)
              && id in e.buckets.shuttles
              && e.buckets.shuttles[id] ==
                 Shuttle(op.route, was.passengers + (if IsOk(e.reply) then BoardingOf(op) else 0), was.capacity)
            else
              (id in b.shuttles <==> id in e.buckets.shuttles) &&
              (id in b.shuttles ==> e.buckets.shuttles[id] == b.shuttles[id])
  {
    if op.DispatchShuttle? {
      Semantics.DispatchOf(b, op.shuttleId, op.route, BoardingOf(op), CapacityOf(op));
      assert Semantics.Apply(ref, op, b) ==
             Semantics.DispatchShuttle(b, op.shuttleId, op.route, BoardingOf(op), CapacityOf(op));
    } else {
      Semantics.TouchesShuttles(ref, op, b);
    }
  }

  ghost function PassengersOf(b: Buckets, id: string): int { if id in b.shuttles then b.shuttles[id].passengers else 0 }

  /** Conservation: a shuttle's passengers are the seats of its accepted dispatches. */
  lemma {:induction false} PassengersAreBoarded(ref: Roster, ops: seq<Op>, id: string)
    ensures PassengersOf(Semantics.Replay(ref, ops).buckets, id) == Boarded(ref, ops, id)
  {
    if ops != [] {
      var n := |ops| - 1;
      PassengersAreBoarded(ref, ops[..n], id);
      ShuttleStep(ref, ops[n], Semantics.Replay(ref, ops[..n]).buckets, id);
    }
  }

  /** The first dispatch fixes a shuttle's capacity, and the last one its route, accepted or not. */
  lemma {:induction false} CapacityAndRoute(ref: Roster, ops: seq<Op>, id: string)
    ensures var shuttles := Semantics.Replay(ref, ops).buckets.shuttles;
            && (id in shuttles <==> FirstDispatch(ops, id).Some?)
            && (id in shuttles ==>
                  && FirstDispatch(ops, id).value.DispatchShuttle?
                  && LastDispatch(ops, id).Some? && LastDispatch(ops, id).value.DispatchShuttle?
                  && shuttles[id].capacity == CapacityOf(FirstDispatch(ops, id).value)
                  && shuttles[id].route == LastDispatch(ops, id).value.route)
  {
    if ops != [] {
      var n := |ops| - 1;
      CapacityAndRoute(ref, ops[..n], id);
      ShuttleStep(ref, ops[n], Semantics.Replay(ref, ops[..n]).buckets, id);
    }
  }

  lemma DispatchAnswer(ref: Roster, b: Buckets, id: string, route: string, seats: Option<int>, capacity: Option<int>)
    requires id in b.shuttles
    ensures var e, was := Semantics.Apply(ref, DispatchShuttle(id, route, seats, capacity), b), b.shuttles[id];
            var boarding := if seats.Some? then seats.value else 0;
            && (IsOk(e.reply) <==> was.passengers + boarding <= was.capacity)
            && PassengersOf(e.buckets, id) == was.passengers + (if IsOk(e.reply) then boarding else 0)
  {
    ShuttleStep(ref, DispatchShuttle(id, route, seats, capacity), b, id);
  }

  /**
   * A shuttle first dispatched without a capacity holds 50. From then on a dispatch is accepted exactly when there is
   * room for the seats it asks for among those 50, whatever capacity it names itself, and boards those; one that names
   * no seats boards nobody.
   */
  lemma {:induction false} FiftySeats(ref: Roster, ops: seq<Op>, id: string, route: string, seats: Option<int>,
                                      capacity: Option<int>)
    requires FirstDispatch(ops, id).Some? && FirstDispatch(ops, id).value.DispatchShuttle?
    requires FirstDispatch(ops, id).value.capacity == None
    ensures var b, boarding := Semantics.Replay(ref, ops).buckets, if seats.Some? then seats.value else 0;
            var e := Semantics.Apply(ref, DispatchShuttle(id, route, seats, capacity), b);
            && id in b.shuttles && b.shuttles[id].capacity == 50
            && (IsOk(e.reply) <==> PassengersOf(b, id) + boarding <= 50)
            && PassengersOf(e.buckets, id) == PassengersOf(b, id) + (if IsOk(e.reply) then boarding else 0)
  {
    CapacityAndRoute(ref, ops, id);
    DispatchAnswer(ref, Semantics.Replay(ref, ops).buckets, id, route, seats, capacity);
  }

  /** The first dispatch itself is measured against the capacity it names, or 50. */
  lemma {:induction false} FirstAnswer(ref: Roster, ops: seq<Op>, id: string, route: string, seats: Option<int>,
                                       capacity: Option<int>)
    requires FirstDispatch(ops, id).None?
    ensures var e := Semantics.Apply(ref, DispatchShuttle(id, route, seats, capacity),
                                     Semantics.Replay(ref, ops).buckets);
            var boarding, room := if seats.Some? then seats.value else 0, if capacity.Some? then capacity.value else 50;
            && (IsOk(e.reply) <==> boarding <= room)
            && id in e.buckets.shuttles
            && e.buckets.shuttles[id] == Shuttle(route, if IsOk(e.reply) then boarding else 0, room)
  {
    CapacityAndRoute(ref, ops, id);
    ShuttleStep(ref, DispatchShuttle(id, route, seats, capacity), Semantics.Replay(ref, ops).buckets, id);
  }

  /** Every dispatch of the shuttle asks for more seats than that. */
  ghost predicate AllAskMore(ops: seq<Op>, id: string, seats: int) {
    forall i :: 0 <= i < |ops| && Dispatches(ops[i], id) ==> BoardingOf(ops[i]) > seats
  }

  /** The requests that overload a shuttle: the first sets a capacity below zero and every one asks for more than it. */
  ghost predicate Overloads(ops: seq<Op>, id: string) {
    var first := FirstDispatch(ops, id);
    && first.Some? && first.value.DispatchShuttle?
    && CapacityOf(first.value) < 0 && AllAskMore(ops, id, CapacityOf(first.value))
  }

  ghost predicate OverCapacity(b: Buckets, id: string) {
    id in b.shuttles && b.shuttles[id].passengers > b.shuttles[id].capacity
  }

  lemma OverloadStep(init: seq<Op>, op: Op, id: string)
    requires FirstDispatch(init, id).Some? ==> FirstDispatch(init, id).value.DispatchShuttle?
    ensures Overloads(init + [op], id) <==>
            if FirstDispatch(init, id).None? then
              Dispatches(op, id) && CapacityOf(op) < 0 && BoardingOf(op) > CapacityOf(op) &&
                  AllAskMore(init, id, CapacityOf(op))
            else
              Overloads(init, id) && (Dispatches(op, id) ==> BoardingOf(op) > CapacityOf(FirstDispatch(init, id).value))
  {
    var ops, n := init + [op], |init|;
    assert ops[..n] == init;
    if Overloads(ops, id) {
      var cap := CapacityOf(FirstDispatch(ops, id).value);
      forall i | 0 <= i < n && Dispatches(init[i], id) ensures BoardingOf(init[i]) > cap { assert ops[i] == init[i]; }
      assert ops[n] == op;
    }
  }

  lemma {:induction false} NeverDispatched(ops: seq<Op>, id: string)
    requires FirstDispatch(ops, id).None?
    ensures forall i :: 0 <= i < |ops| ==> !Dispatches(ops[i], id)
  {
    if ops != [] { NeverDispatched(ops[..|ops| - 1], id); }
  }

  /** A shuttle is over capacity exactly when its requests overload it; nothing was accepted then. */
  lemma {:induction false} OverCapacityIff(ref: Roster, ops: seq<Op>, id: string)
    ensures OverCapacity(Semantics.Replay(ref, ops).buckets, id) <==> Overloads(ops, id)
    ensures Overloads(ops, id) ==> PassengersOf(Semantics.Replay(ref, ops).buckets, id) == 0
  {
    if ops != [] {
      var n := |ops| - 1;
      OverCapacityIff(ref, ops[..n], id);
      CapacityAndRoute(ref, ops[..n], id);
      OverloadStep(ops[..n], ops[n], id);
      assert ops == ops[..n] + [ops[n]];
      if FirstDispatch(ops[..n], id).None? { NeverDispatched(ops[..n], id); }
      ShuttleStep(ref, ops[n], Semantics.Replay(ref, ops[..n]).buckets, id);
    }
  }

  /** Such a shuttle is real: one dispatch of nobody with capacity -1 leaves one over capacity. */
  lemma OverCapacityHappens(ref: Roster, id: string, route: string)
    ensures OverCapacity(Semantics.Replay(ref, [DispatchShuttle(id, route, Some(0), Some(-1))]).buckets, id)
  {
    var op := DispatchShuttle(id, route, Some(0), Some(-1));
    assert [op][..0] == [];
    ShuttleStep(ref, op, EMPTY_BUCKETS, id);
  }

  /** In terms of the replies, it is a negative capacity against which nothing was ever accepted. */
  lemma {:induction false} OverCapacityMeansRefused(ref: Roster, ops: seq<Op>, id: string)
    ensures var b := Semantics.Replay(ref, ops).buckets;
            && (OverCapacity(b, id) <==>
                  id in b.shuttles && b.shuttles[id].capacity < 0 && !AnyAccepted(ref, ops, id))
            && (!AnyAccepted(ref, ops, id) ==> PassengersOf(b, id) == 0)
            && (AnyAccepted(ref, ops, id) ==> id in b.shuttles)
  {
    if ops != [] {
      var n := |ops| - 1;
      OverCapacityMeansRefused(ref, ops[..n], id);
      ShuttleStep(ref, ops[n], Semantics.Replay(ref, ops[..n]).buckets, id);
      AcceptedSoFar(ref, ops[..n], ops[n], id);
      assert ops == ops[..n] + [ops[n]];
    }
  }

  lemma AcceptedStays(ref: Roster, init: seq<Op>, op: Op, id: string, i: nat)
    requires i < |init|
    ensures AcceptedAt(ref, init + [op], id, i) <==> AcceptedAt(ref, init, id, i)
  {
    Semantics.ReplyAtExtends(ref, init, op, i);
  }

  lemma AcceptedLast(ref: Roster, init: seq<Op>, op: Op, id: string)
    ensures AcceptedAt(ref, init + [op], id, |init|) <==>
            Dispatches(op, id) && IsOk(Semantics.Apply(ref, op, Semantics.Replay(ref, init).buckets).reply)
  {
    assert (init + [op])[..|init|] == init;
  }

  lemma AcceptedSoFar(ref: Roster, init: seq<Op>, op: Op, id: string)
    ensures AnyAccepted(ref, init + [op], id) <==>
            AnyAccepted(ref, init, id) ||
            (Dispatches(op, id) && IsOk(Semantics.Apply(ref, op, Semantics.Replay(ref, init).buckets).reply))
  {
    AcceptedLast(ref, init, op, id);
    forall i: nat | i < |init| ensures AcceptedAt(ref, init + [op], id, i) <==> AcceptedAt(ref, init, id, i) {
      AcceptedStays(ref, init, op, id, i);
    }
  }

  // ---- Venues --------------------------------------------------------------

  datatype VenueEvent = Taken(holder: string) | Returned

  /** The accepted bookings and releases of a venue, in order. */
  ghost function Trail(ref: Roster, ops: seq<Op>, v: string): seq<VenueEvent> {
    if ops == [] then []
    else
      var n := |ops| - 1;
      Trail(ref, ops[..n], v) +
      (if !IsOk(Semantics.ReplyAt(ref, ops, n)) then []
       else if ops[n].BookVenueSlot? && ops[n].venueId == v then [Taken(ops[n].matchId)]
       else if ops[n].ReleaseVenueSlot? && ops[n].venueId == v then [Returned]
       else [])
  }

  lemma BookingTakes(ref: Roster, b: Buckets, v': string, m: string, v: string)
    ensures var e, was := Semantics.BookVenueSlot(ref, b, v', m), Semantics.VenueOf(b, v);
            && Semantics.VenueOf(e.buckets, v) ==
               (if v' == v && IsOk(e.reply) then Venue(Occupied, Some(m)) else was)
            && (v' == v ==> (IsOk(e.reply) <==> v in ref.venues && was.status.Free?))
  {
  }

  lemma ReleaseFrees(b: Buckets, v': string, v: string)
    ensures var e, was := Semantics.ReleaseVenueSlot(b, v'), Semantics.VenueOf(b, v);
            && Semantics.VenueOf(e.buckets, v) == (if v' == v && IsOk(e.reply) then Venue(Free, None) else was)
            && (v' == v ==> (IsOk(e.reply) <==> was.status.Occupied?))
  {
  }

  lemma VenueStep(ref: Roster, op: Op, b: Buckets, v: string)
    requires Semantics.VenueOf(b, v).status.Free? <==> Semantics.VenueOf(b, v).heldBy.None?
    ensures var e := Semantics.Apply(ref, op, b);
            var was, now := Semantics.VenueOf(b, v), Semantics.VenueOf(e.buckets, v);
            if op.BookVenueSlot? && op.venueId == v && IsOk(e.reply) then
              was.status.Free? && now == Venue(Occupied, Some(op.matchId))
            else if op.ReleaseVenueSlot? && op.venueId == v && IsOk(e.reply) then
              was.status.Occupied? && now == Venue(Free, None)
            else now == was
    ensures op.BookVenueSlot? && op.venueId == v && v in ref.venues ==>
              (IsOk(Semantics.Apply(ref, op, b).reply) <==> Semantics.VenueOf(b, v).status.Free?)
    ensures op.ReleaseVenueSlot? && op.venueId == v ==>
              (IsOk(Semantics.Apply(ref, op, b).reply) <==> Semantics.VenueOf(b, v).status.Occupied?)
  {
    Semantics.TouchesVenues(ref, op, b);
    match op {
      case BookVenueSlot(v', m) => BookingTakes(ref, b, v', m, v);
      case ReleaseVenueSlot(v') => ReleaseFrees(b, v', v);
      case _ =>
    }
  }

  /** A booking is accepted exactly when its venue is on the roster and free. */
  lemma {:induction false} BookingAnswer(ref: Roster, op: Op, b: Buckets)
    ensures op.BookVenueSlot? ==>
              (IsOk(Semantics.Apply(ref, op, b).reply) <==>
                 op.venueId in ref.venues && (op.venueId in b.venues ==> b.venues[op.venueId].status == Free))
  {
  }

  /** So a venue nobody knows is never occupied. */
  lemma {:induction false} UnknownVenue(ref: Roster, ops: seq<Op>, v: string, m: string)
    requires v !in ref.venues
    ensures Semantics.VenueOf(Semantics.Replay(ref, ops).buckets, v).status == Free
    ensures !IsOk(Semantics.Apply(ref, BookVenueSlot(v, m), Semantics.Replay(ref, ops).buckets).reply)
  {
    VenueProtocol(ref, ops, v);
    assert |Trail(ref, ops, v)| % 2 == 0;
    BookingAnswer(ref, BookVenueSlot(v, m), Semantics.Replay(ref, ops).buckets);
  }

  /** Bookings and releases take turns, a booking first. */
  ghost predicate Alternates(trail: seq<VenueEvent>) {
    forall k :: 0 <= k < |trail| ==> (trail[k].Taken? <==> k % 2 == 0)
  }

  ghost function VenueAfter(trail: seq<VenueEvent>): Venue
    requires Alternates(trail)
  {
    if |trail| % 2 == 0 then Venue(Free, None) else Venue(Occupied, Some(trail[|trail| - 1].holder))
  }

  /**
   * Venue protocol. A venue's accepted requests alternate, starting with a booking; it is occupied exactly after a
   * booking, and then held by that booking's match. A venue nobody knows never has an accepted request.
   */
  lemma {:induction false} VenueProtocol(ref: Roster, ops: seq<Op>, v: string)
    ensures Alternates(Trail(ref, ops, v))
    ensures Semantics.VenueOf(Semantics.Replay(ref, ops).buckets, v) == VenueAfter(Trail(ref, ops, v))
    ensures v !in ref.venues ==> Trail(ref, ops, v) == []
  {
    if ops != [] {
      var n := |ops| - 1;
      VenueProtocol(ref, ops[..n], v);
      BookingAnswer(ref, ops[n], Semantics.Replay(ref, ops[..n]).buckets);
      VenueStep(ref, ops[n], Semantics.Replay(ref, ops[..n]).buckets, v);
      TakeTurn(Trail(ref, ops[..n], v), Returned);
      if ops[n].BookVenueSlot? { TakeTurn(Trail(ref, ops[..n], v), Taken(ops[n].matchId)); }
    }
  }

  lemma TakeTurn(trail: seq<VenueEvent>, e: VenueEvent)
    requires Alternates(trail)
    ensures (e.Taken? <==> VenueAfter(trail).status.Free?) ==>
              && Alternates(trail + [e])
              && VenueAfter(trail + [e]) == if e.Taken? then Venue(Occupied, Some(e.holder)) else Venue(Free, None)
    ensures trail + [] == trail
  {
  }

  // ---- Subscriptions and fan-out -------------------------------------------

  predicate SignsUp(ref: Roster, op: Op, topic: string) {
    op.SubscribeToUpdates? && op.topic == topic && op.subscriberId in ref.users
  }

  /** Accepted subscriptions to a topic, repeats included. */
  function SignUps(ref: Roster, ops: seq<Op>, topic: string): seq<string> {
    if ops == [] then []
    else
      var n := |ops| - 1;
      SignUps(ref, ops[..n], topic) +
      (if SignsUp(ref, ops[n], topic) then [ops[n].subscriberId] else [])
  }

  /** First occurrences only. */
  function Dedup(s: seq<string>): seq<string> {
    if s == [] then []
    else
      var d, last := Dedup(s[..|s| - 1]), s[|s| - 1];
      if last in s[..|s| - 1] then d else d + [last]
  }

  lemma {:induction false} DedupKeepsFirsts(s: seq<string>)
    ensures Distinct(Dedup(s))
    ensures forall x :: x in Dedup(s) <==> x in s
  {
    if s != [] {
      var init := s[..|s| - 1];
      DedupKeepsFirsts(init);
      assert s == init + [s[|s| - 1]];
    }
  }

  lemma SubscriptionStep(ref: Roster, op: Op, b: Buckets, topic: string)
    ensures var was := Semantics.SubscribersOf(b, topic);
            Semantics.SubscribersOf(Semantics.Apply(ref, op, b).buckets, topic) ==
            if SignsUp(ref, op, topic) && op.subscriberId !in was then was + [op.subscriberId] else was
  {
    Semantics.TouchesSubscriptions(ref, op, b);
    if op.SubscribeToUpdates? {
      SignUpStep(ref, b, op.subscriberId, op.topic, topic);
      assert Semantics.Apply(ref, op, b) == Semantics.SubscribeToUpdates(ref, b, op.subscriberId, op.topic);
    }
  }

  lemma SignUpStep(ref: Roster, b: Buckets, user: string, to: string, topic: string)
    ensures var was := Semantics.SubscribersOf(b, topic);
            Semantics.SubscribersOf(Semantics.SubscribeToUpdates(ref, b, user, to).buckets, topic) ==
            if to == topic && user in ref.users && user !in was then was + [user] else was
  {
    if user !in ref.users { assert Semantics.SubscribeToUpdates(ref, b, user, to).buckets == b; }
  }

  /** A topic's subscribers are those who ever signed up, once each, in order of first sign-up. */
  lemma {:induction false} SubscribersAreSignUps(ref: Roster, ops: seq<Op>, topic: string)
    ensures Semantics.SubscribersOf(Semantics.Replay(ref, ops).buckets, topic) == Dedup(SignUps(ref, ops, topic))
  {
    if ops != [] {
      var n := |ops| - 1;
      SubscribersAreSignUps(ref, ops[..n], topic);
      SubscriptionStep(ref, ops[n], Semantics.Replay(ref, ops[..n]).buckets, topic);
      var before := SignUps(ref, ops[..n], topic);
      if SignsUp(ref, ops[n], topic) {
        DedupGrows(before, ops[n].subscriberId);
        assert SignUps(ref, ops, topic) == before + [ops[n].subscriberId];
      } else {
        assert SignUps(ref, ops, topic) == before + [] == before;
      }
    }
  }

  lemma DedupGrows(s: seq<string>, x: string)
    ensures Dedup(s + [x]) == if x in Dedup(s) then Dedup(s) else Dedup(s) + [x]
  {
    DedupKeepsFirsts(s);
    assert (s + [x])[..|s|] == s;
  }

  /** What a request must deliver after a history: per push or go-live, one per person signed up, in that order. */
  function News(ref: Roster, before: seq<Op>, op: Op): seq<LogEntry> {
    match op
    case PushLiveEvent(m, e, _) => Semantics.Deliveries(m, Dedup(SignUps(ref, before, m)), e)
    case GoLive(m, _, _) => Semantics.Deliveries(m, Dedup(SignUps(ref, before, m)), "live")
    case _ => []
  }

  /** The deliveries a history must make. */
  function ExpectedDeliveries(ref: Roster, ops: seq<Op>): seq<LogEntry> {
    if ops == [] then []
    else
      var n := |ops| - 1;
      ExpectedDeliveries(ref, ops[..n]) + News(ref, ops[..n], ops[n])
  }

  lemma NewsDelivered(ref: Roster, before: seq<Op>, op: Op)
    ensures DeliveryLog.FanOut(op, Semantics.Replay(ref, before).buckets) == News(ref, before, op)
  {
    match op {
      case PushLiveEvent(m, _, _) => SubscribersAreSignUps(ref, before, m);
      case GoLive(m, _, _) => SubscribersAreSignUps(ref, before, m);
      case _ =>
    }
  }

  /** Exact fan-out: the log's deliveries are the expected ones and no others. */
  lemma {:induction false} ExactFanOut(ref: Roster, ops: seq<Op>)
    ensures DeliveryLog.OnlyDeliveries(Semantics.Replay(ref, ops).log) == ExpectedDeliveries(ref, ops)
  {
    if ops != [] {
      var n := |ops| - 1;
      ExactFanOut(ref, ops[..n]);
      var s := Semantics.Replay(ref, ops[..n]);
      DeliveryLog.OnlyDeliveriesSplits(s.log, Semantics.Apply(ref, ops[n], s.buckets).entries);
      DeliveryLog.CoreFanOut(ref, ops[n], s.buckets);
      NewsDelivered(ref, ops[..n], ops[n]);
    }
  }

  /** The count a push reports is the number of people it delivered to. */
  lemma {:induction false} PushReportsAudience(ref: Roster, ops: seq<Op>, i: nat)
    requires i < |ops| && ops[i].PushLiveEvent?
    ensures Semantics.ReplyAt(ref, ops, i).Some? && Semantics.ReplyAt(ref, ops, i).value.Pushed?
    ensures Semantics.ReplyAt(ref, ops, i).value.delivered == |Dedup(SignUps(ref, ops[..i], ops[i].matchId))|
  {
    SubscribersAreSignUps(ref, ops[..i], ops[i].matchId);
  }

  // ---- Medal scores --------------------------------------------------------

  predicate Awards(ref: Roster, op: Op, c: string, medal: string) {
    op.UpdateCountryScore? && op.countryCode == c && op.medal == medal && c in ref.countries
  }

  function MedalCount(ref: Roster, ops: seq<Op>, c: string, medal: string): nat {
    if ops == [] then 0
    else
      MedalCount(ref, ops[..|ops| - 1], c, medal) + (if Awards(ref, ops[|ops| - 1], c, medal) then 1 else 0)
  }

  ghost function Tally(ref: Roster, ops: seq<Op>, c: string): Score {
    var g, s := MedalCount(ref, ops, c, "gold"), MedalCount(ref, ops, c, "silver");
    var b := MedalCount(ref, ops, c, "bronze");
    Score(g, s, b, 3 * g + 2 * s + b)
  }

  lemma MedalNamesDiffer()
    ensures "gold" != "silver" && "gold" != "bronze" && "silver" != "bronze"
  {
    assert "silver"[0] != "bronze"[0];
  }

  predicate AwardsAny(ref: Roster, op: Op, c: string) {
    op.UpdateCountryScore? && op.countryCode == c && c in ref.countries && Semantics.IsMedal(op.medal)
  }

  lemma ScoreStep(ref: Roster, op: Op, b: Buckets, c: string)
    ensures var e, was := Semantics.Apply(ref, op, b), Semantics.ScoreOf(b, c);
            && Semantics.ScoreOf(e.buckets, c) ==
               (if AwardsAny(ref, op, c) then Semantics.Award(was, op.medal) else was)
            && (c in e.buckets.countryScores.entries <==> c in b.countryScores.entries || AwardsAny(ref, op, c))
  {
    Semantics.TouchesScores(ref, op, b);
    if op.UpdateCountryScore? {
      AwardStep(ref, b, op.countryCode, op.medal, c);
      assert Semantics.Apply(ref, op, b) == Semantics.UpdateCountryScore(ref, b, op.countryCode, op.medal);
    }
  }

  lemma AwardStep(ref: Roster, b: Buckets, to: string, medal: string, c: string)
    ensures var e, was := Semantics.UpdateCountryScore(ref, b, to, medal), Semantics.ScoreOf(b, c);
            var awarded := to == c && c in ref.countries && Semantics.IsMedal(medal);
            && Semantics.ScoreOf(e.buckets, c) == (if awarded then Semantics.Award(was, medal) else was)
            && (c in e.buckets.countryScores.entries <==> c in b.countryScores.entries || awarded)
  {
    if to in ref.countries && Semantics.IsMedal(medal) {
      var score := Semantics.Award(Semantics.ScoreOf(b, to), medal);
      assert Semantics.UpdateCountryScore(ref, b, to, medal).buckets.countryScores == Put(b.countryScores, to, score);
    } else {
      assert Semantics.UpdateCountryScore(ref, b, to, medal).buckets == b;
    }
  }

  /** A country's entry counts its accepted awards, with three points a gold, two a silver and one a bronze. */
  lemma {:induction false} ScoresAreTallies(ref: Roster, ops: seq<Op>, c: string)
    ensures var b := Semantics.Replay(ref, ops).buckets;
            && Semantics.ScoreOf(b, c) == Tally(ref, ops, c)
            && (c in b.countryScores.entries <==> Tally(ref, ops, c).points > 0)
  {
    if ops != [] {
      var n := |ops| - 1;
      ScoresAreTallies(ref, ops[..n], c);
      ScoreStep(ref, ops[n], Semantics.Replay(ref, ops[..n]).buckets, c);
      MedalNamesDiffer();
    }
  }

  ghost predicate SameAwards(ref: Roster, ops: seq<Op>, more: seq<Op>) {
    forall c, medal :: Semantics.IsMedal(medal) ==> MedalCount(ref, ops, c, medal) == MedalCount(ref, more, c, medal)
  }

  /**
   * Canonical standings: histories with the same awards in any order and any company rank the countries identically.
   */
  lemma {:induction false} SameAwardsSameStandings(ref: Roster, ops: seq<Op>, other: seq<Op>)
    requires SameAwards(ref, ops, other)
    ensures Standings.Ranking(Semantics.Replay(ref, ops).buckets.countryScores)
         == Standings.Ranking(Semantics.Replay(ref, other).buckets.countryScores)
  {
    var t, u := Semantics.Replay(ref, ops).buckets.countryScores, Semantics.Replay(ref, other).buckets.countryScores;
    forall c ensures c in t.entries <==> c in u.entries
             ensures c in t.entries ==> t.entries[c] == u.entries[c]
    {
      ScoresAreTallies(ref, ops, c);
      ScoresAreTallies(ref, other, c);
    }
    assert t.entries == u.entries;
    Standings.RankingCanonical(t, u);
  }

  predicate Recomputes(op: Op) { op.RecomputeStandings? || op.GoLive? }

  lemma RecomputeRanks(ref: Roster, op: Op, b: Buckets)
    requires Recomputes(op)
    ensures Semantics.Apply(ref, op, b).buckets.standings == Some(Standings.Ranking(b.countryScores))
  {
    if op.GoLive? { assert Semantics.Apply(ref, op, b) ==
                           Semantics.GoLive(b, op.matchId, op.streamId, GetOr(op.details, "match is live")); }
  }

  lemma StandingsStep(ref: Roster, op: Op, b: Buckets)
    ensures Semantics.Apply(ref, op, b).buckets.standings ==
            if Recomputes(op) then Some(Standings.Ranking(b.countryScores)) else b.standings
  {
    if Recomputes(op) { RecomputeRanks(ref, op, b); } else { Semantics.TouchesStandings(ref, op, b); }
  }

  lemma StandingsAfter(ref: Roster, ops: seq<Op>)
    requires ops != []
    ensures var op, b := ops[|ops| - 1], Semantics.Replay(ref, ops[..|ops| - 1]).buckets;
            Semantics.Replay(ref, ops).buckets.standings ==
            if Recomputes(op) then Some(Standings.Ranking(b.countryScores)) else b.standings
  {
    StandingsStep(ref, ops[|ops| - 1], Semantics.Replay(ref, ops[..|ops| - 1]).buckets);
  }

  /** The stored standings rank the scores as they were at the last recomputation. */
  lemma {:induction false} StandingsAsOfLastRecompute(ref: Roster, ops: seq<Op>, i: nat)
    requires i < |ops| && Recomputes(ops[i]) && forall j :: i < j < |ops| ==> !Recomputes(ops[j])
    ensures Semantics.Replay(ref, ops).buckets.standings ==
            Some(Standings.Ranking(Semantics.Replay(ref, ops[..i]).buckets.countryScores))
  {
    var n := |ops| - 1;
    StandingsAfter(ref, ops);
    if i < n {
      StandingsAsOfLastRecompute(ref, ops[..n], i);
      assert ops[..n][..i] == ops[..i];
    }
  }
}
