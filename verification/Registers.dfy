/** What histories leave in the buckets that only hold the latest entry, and what replies and logs report. */
module Registers {
  import opened Domain
  import Semantics
  import Standings
  import Histories
  import Cascade
  import Monolith
  import Tallies

  // ---- Parameters left out -------------------------------------------------

  /** What an absent parameter stands for. */
  lemma {:induction false} AbsentShuttleParameters(ref: Roster, b: Buckets, id: string, route: string,
                                                   seats: Option<int>, capacity: Option<int>)
    ensures Semantics.Apply(ref, DispatchShuttle(id, route, None, capacity), b) ==
            Semantics.Apply(ref, DispatchShuttle(id, route, Some(0), capacity), b)
    ensures Semantics.Apply(ref, DispatchShuttle(id, route, seats, None), b) ==
            Semantics.Apply(ref, DispatchShuttle(id, route, seats, Some(50)), b)
  {
  }

  lemma {:induction false} AbsentTexts(ref: Roster, b: Buckets, m: string, x: string, corrupt: bool)
    ensures Semantics.Apply(ref, PushLiveEvent(m, x, None), b) == Semantics.Apply(ref, PushLiveEvent(m, x, Some("")), b)
    ensures Semantics.Apply(ref, GoLive(m, x, None), b) == Semantics.Apply(ref, GoLive(m, x, Some("match is live")), b)
    ensures Semantics.Apply(ref, RenderHighlight(None, corrupt), b) ==
            Semantics.Apply(ref, RenderHighlight(Some("?"), corrupt), b)
  {
  }

  // ---- Volunteers ----------------------------------------------------------

  predicate Assigns(ref: Roster, op: Op, volunteer: string) {
    && op.AssignVolunteer? && op.volunteerId == volunteer
    && volunteer in ref.volunteers && op.venue in ref.venues
  }

  /** The venue of a volunteer's last valid assignment. */
  function LastPost(ref: Roster, ops: seq<Op>, volunteer: string): Option<string> {
    if ops == [] then None
    else if Assigns(ref, ops[|ops| - 1], volunteer) then Some(ops[|ops| - 1].venue)
    else LastPost(ref, ops[..|ops| - 1], volunteer)
  }

  lemma VolunteerStep(ref: Roster, op: Op, b: Buckets, volunteer: string)
    ensures var e := Semantics.Apply(ref, op, b);
            && (volunteer in e.buckets.volunteers <==> volunteer in b.volunteers || Assigns(ref, op, volunteer))
            && (volunteer in e.buckets.volunteers ==>
                  e.buckets.volunteers[volunteer] ==
                  if Assigns(ref, op, volunteer) then op.venue else b.volunteers[volunteer])
    ensures op.AssignVolunteer? && op.volunteerId == volunteer ==>
              (IsOk(Semantics.Apply(ref, op, b).reply) <==> Assigns(ref, op, volunteer))
  {
    Semantics.TouchesVolunteers(ref, op, b);
  }

  /** A volunteer is where the last valid assignment sent them, an assignment being accepted exactly when valid. */
  lemma {:induction false} VolunteersAreWherePosted(ref: Roster, ops: seq<Op>, volunteer: string, venue: string)
    ensures var b, post := Semantics.Replay(ref, ops).buckets, LastPost(ref, ops, volunteer);
            && (volunteer in b.volunteers <==> post.Some?)
            && (post.Some? ==> b.volunteers[volunteer] == post.value)
            && (IsOk(Semantics.Apply(ref, AssignVolunteer(volunteer, venue), b).reply) <==>
                  volunteer in ref.volunteers && venue in ref.venues)
  {
    VolunteerStep(ref, AssignVolunteer(volunteer, venue), Semantics.Replay(ref, ops).buckets, volunteer);
    if ops != [] {
      var n := |ops| - 1;
      VolunteersAreWherePosted(ref, ops[..n], volunteer, venue);
      VolunteerStep(ref, ops[n], Semantics.Replay(ref, ops[..n]).buckets, volunteer);
    }
  }

  // ---- Tables --------------------------------------------------------------

  /** A valid reservation filed under this key. */
  predicate Reserves(ref: Roster, op: Op, key: string) {
    && op.ReserveRestaurantTable? && op.restaurantId + ":" + op.athleteId == key
    && op.athleteId in ref.athletes && (op.partySize == 1 || (op.partySize > 1 && op.partySize < 9))
  }

  function LastTable(ref: Roster, ops: seq<Op>, key: string): Option<Booking> {
    if ops == [] then None
    else
      var op := ops[|ops| - 1];
      if Reserves(ref, op, key) then Some(Booking(op.athleteId, op.restaurantId, op.partySize))
      else LastTable(ref, ops[..|ops| - 1], key)
  }

  lemma TableStep(ref: Roster, op: Op, b: Buckets, key: string)
    ensures var tables := Semantics.Apply(ref, op, b).buckets.restaurantBookings;
            && (key in tables <==> key in b.restaurantBookings || Reserves(ref, op, key))
            && (key in tables ==>
                  tables[key] == if Reserves(ref, op, key) then Booking(op.athleteId, op.restaurantId, op.partySize)
                                 else b.restaurantBookings[key])
    ensures op.ReserveRestaurantTable? && op.restaurantId + ":" + op.athleteId == key ==>
              (IsOk(Semantics.Apply(ref, op, b).reply) <==> Reserves(ref, op, key))
  {
    Semantics.TouchesTables(ref, op, b);
  }

  /** A table's entry is its last valid reservation's, valid being a known athlete and a party of one to eight. */
  lemma {:induction false} TablesAreLastReserved(ref: Roster, ops: seq<Op>, key: string)
    ensures var tables := Semantics.Replay(ref, ops).buckets.restaurantBookings;
            && (key in tables <==> LastTable(ref, ops, key).Some?)
            && (key in tables ==> tables[key] == LastTable(ref, ops, key).value)
  {
    if ops != [] {
      var n := |ops| - 1;
      TablesAreLastReserved(ref, ops[..n], key);
      TableStep(ref, ops[n], Semantics.Replay(ref, ops[..n]).buckets, key);
    }
  }

  // ---- Statuses, streams, standings ----------------------------------------

  lemma StatusStep(ref: Roster, op: Op, b: Buckets, m: string)
    ensures Semantics.MatchOf(Semantics.Apply(ref, op, b).buckets, m).status ==
            if Cascade.SetsStatus(op, m) then Some(if op.PushLiveEvent? then op.eventType else "live")
            else Semantics.MatchOf(b, m).status
  {
    Semantics.TouchesMatches(ref, op, b);
    if op.BookTicket? { TicketKeepsStatus(ref, b, op.matchId, op.seatId, op.userId, m); }
  }

  lemma TicketKeepsStatus(ref: Roster, b: Buckets, m': string, seat: string, user: string, m: string)
    ensures Semantics.MatchOf(Semantics.BookTicket(ref, b, m', seat, user).buckets, m).status ==
            Semantics.MatchOf(b, m).status
  {
    var was := Semantics.MatchOf(b, m');
    if user in ref.users {
      StatusAfterPut(b, m', if seat in was.seats then was else was.(seats := was.seats[seat := user]), m);
    }
  }

  lemma StatusAfterPut(b: Buckets, m': string, entry: Match, m: string)
    requires entry.status == Semantics.MatchOf(b, m').status
    ensures Semantics.MatchOf(b.(matches := b.matches[m' := entry]), m).status == Semantics.MatchOf(b, m).status
  {
  }

  /** A match has the status its last push or go-live gave it. */
  lemma {:induction false} StatusIsLastSet(ref: Roster, ops: seq<Op>, m: string)
    ensures Semantics.MatchOf(Semantics.Replay(ref, ops).buckets, m).status == Cascade.LastStatus(ops, m)
  {
    if ops != [] {
      var n := |ops| - 1;
      StatusIsLastSet(ref, ops[..n], m);
      StatusStep(ref, ops[n], Semantics.Replay(ref, ops[..n]).buckets, m);
    }
  }

  lemma StreamStep(ref: Roster, op: Op, b: Buckets, stream: string)
    ensures var streams := Semantics.Apply(ref, op, b).buckets.streams;
            && (stream in streams <==> stream in b.streams || Cascade.Allocates(op, stream))
            && (stream in streams ==>
                  streams[stream] == if Cascade.Allocates(op, stream) then Stream(op.matchId, "on_air")
                                     else b.streams[stream])
  {
    Semantics.TouchesStreams(ref, op, b);
  }

  /** A stream is on air for the match it was last allocated to. */
  lemma {:induction false} StreamIsLastAllocated(ref: Roster, ops: seq<Op>, stream: string)
    ensures var streams := Semantics.Replay(ref, ops).buckets.streams;
            && (stream in streams <==> Cascade.LastMatch(ops, stream).Some?)
            && (stream in streams ==> streams[stream] == Stream(Cascade.LastMatch(ops, stream).value, "on_air"))
  {
    if ops != [] {
      var n := |ops| - 1;
      StreamIsLastAllocated(ref, ops[..n], stream);
      StreamStep(ref, ops[n], Semantics.Replay(ref, ops[..n]).buckets, stream);
    }
  }

  /** There are standings exactly when they were recomputed at least once. */
  lemma {:induction false} StandingsIff(ref: Roster, ops: seq<Op>)
    ensures Semantics.Replay(ref, ops).buckets.standings.Some? <==>
            exists i :: 0 <= i < |ops| && Histories.Recomputes(ops[i])
  {
    if ops != [] {
      var n := |ops| - 1;
      StandingsIff(ref, ops[..n]);
      Histories.StandingsStep(ref, ops[n], Semantics.Replay(ref, ops[..n]).buckets);
      if i :| 0 <= i < |ops| && Histories.Recomputes(ops[i]) { assert i < n ==> ops[..n][i] == ops[i]; }
    }
  }

  // ---- What replies report -------------------------------------------------

  lemma ReplayTo(ref: Roster, ops: seq<Op>, i: nat)
    requires i < |ops|
    ensures Semantics.Replay(ref, ops[..i + 1]).buckets ==
            Semantics.Apply(ref, ops[i], Semantics.Replay(ref, ops[..i]).buckets).buckets
  {
    assert ops[..i + 1][..i] == ops[..i];
  }

  lemma AwardReply(ref: Roster, op: Op, b: Buckets)
    requires op.UpdateCountryScore?
    ensures var e := Semantics.Apply(ref, op, b);
            if Histories.AwardsAny(ref, op, op.countryCode) then
              e.reply == Some(Scored(true, PlusOne(op.countryCode, op.medal),
                                     Semantics.ScoreOf(e.buckets, op.countryCode).points))
            else !IsOk(e.reply)
  {
    Histories.ScoreStep(ref, op, b, op.countryCode);
  }

  lemma TalliedReply(ref: Roster, ops: seq<Op>, i: nat)
    requires i < |ops| && ops[i].UpdateCountryScore?
    ensures var c := ops[i].countryCode;
            if Histories.AwardsAny(ref, ops[i], c) then
              Semantics.ReplyAt(ref, ops, i) ==
              Some(Scored(true, PlusOne(c, ops[i].medal), Histories.Tally(ref, ops[..i + 1], c).points))
            else !IsOk(Semantics.ReplyAt(ref, ops, i))
  {
    AwardReply(ref, ops[i], Semantics.Replay(ref, ops[..i]).buckets);
    ReplayTo(ref, ops, i);
    Histories.ScoresAreTallies(ref, ops[..i + 1], ops[i].countryCode);
  }

  /** Three points a gold, two a silver and one a bronze, over the awards so far. */
  ghost function PointsOf(ref: Roster, ops: seq<Op>, c: string): int {
    3 * Histories.MedalCount(ref, ops, c, "gold") + 2 * Histories.MedalCount(ref, ops, c, "silver")
    + Histories.MedalCount(ref, ops, c, "bronze")
  }

  /** An award is accepted exactly for a known country and medal, and reports the country's points, itself included. */
  lemma {:induction false} PointsReported(ref: Roster, ops: seq<Op>, i: nat)
    requires i < |ops| && ops[i].UpdateCountryScore?
    ensures var c, medal := ops[i].countryCode, ops[i].medal;
            if c in ref.countries && (medal == "gold" || medal == "silver" || medal == "bronze") then
              Semantics.ReplyAt(ref, ops, i) == Some(Scored(true, PlusOne(c, medal), PointsOf(ref, ops[..i + 1], c)))
            else !IsOk(Semantics.ReplyAt(ref, ops, i))
  {
    TalliedReply(ref, ops, i);
  }

  lemma LoadReply(ref: Roster, op: Op, b: Buckets)
    requires op.DispatchShuttle? && IsOk(Semantics.Apply(ref, op, b).reply)
    ensures var e := Semantics.Apply(ref, op, b);
            var aboard := Histories.PassengersOf(e.buckets, op.shuttleId);
            e.reply == Some(Reply(true, OnRoute(op.shuttleId, op.route, aboard)))
  {
    Semantics.DispatchOf(b, op.shuttleId, op.route, BoardingOf(op), CapacityOf(op));
    assert Semantics.Apply(ref, op, b) ==
           Semantics.DispatchShuttle(b, op.shuttleId, op.route, BoardingOf(op), CapacityOf(op));
  }

  /** An accepted dispatch reports everybody boarded so far, itself included. */
  lemma {:induction false} LoadReported(ref: Roster, ops: seq<Op>, i: nat)
    requires i < |ops| && ops[i].DispatchShuttle? && IsOk(Semantics.ReplyAt(ref, ops, i))
    ensures var id := ops[i].shuttleId;
            Semantics.ReplyAt(ref, ops, i) ==
            Some(Reply(true, OnRoute(id, ops[i].route, Histories.Boarded(ref, ops[..i + 1], id))))
  {
    LoadReply(ref, ops[i], Semantics.Replay(ref, ops[..i]).buckets);
    ReplayTo(ref, ops, i);
    Histories.PassengersAreBoarded(ref, ops[..i + 1], ops[i].shuttleId);
  }

  /** Subscriptions are accepted exactly for known users, and these calls always, unless the process aborts. */
  lemma {:induction false} OtherAnswers(ref: Roster, op: Op, b: Buckets)
    ensures op.SubscribeToUpdates? ==> (IsOk(Semantics.Apply(ref, op, b).reply) <==> op.subscriberId in ref.users)
    ensures op.PushLiveEvent? || op.AllocateStream? || op.RecomputeStandings? || op.GoLive? || op.ProjectMedals? ==>
              IsOk(Semantics.Apply(ref, op, b).reply)
    ensures op.RenderHighlight? ==> (IsOk(Semantics.Apply(ref, op, b).reply) <==> !op.corrupt)
  {
  }

  /** A recomputation reports how many countries it ranked. */
  lemma {:induction false} CountriesReported(ref: Roster, b: Buckets)
    ensures var e := Semantics.Apply(ref, RecomputeStandings, b);
            && e.buckets.standings.Some?
            && e.reply == Some(Reply(true, RecomputedFor(|e.buckets.standings.value|)))
            && e.entries == [StandingsRecomputed(|e.buckets.standings.value|)]
  {
    Standings.RankingIsStandings(b.countryScores);
  }

  // ---- Why a request is refused, and what it is told -----------------------

  /** A refusal's reason, for bookings and releases of a venue and for tickets. */
  lemma {:induction false} VenueAndSeatRefusals(ref: Roster, op: Op, b: Buckets)
    ensures var no := (why: Message) => Semantics.Apply(ref, op, b).reply == Some(Reply(false, why));
            && (op.BookVenueSlot? ==>
                  && (no(UnknownVenue(op.venueId)) <==> op.venueId !in ref.venues)
                  && (no(VenueNotFree(op.venueId)) <==>
                        op.venueId in ref.venues && op.venueId in b.venues && b.venues[op.venueId].status == Occupied))
            && (op.ReleaseVenueSlot? ==>
                  (no(WasNotOccupied(op.venueId)) <==>
                     !(op.venueId in b.venues && b.venues[op.venueId].status == Occupied)))
            && (op.BookTicket? ==>
                  && (no(UnknownUser(op.userId)) <==> op.userId !in ref.users)
                  && (no(AlreadySold(op.seatId)) <==>
                        op.userId in ref.users && Histories.OwnerOf(b, op.matchId, op.seatId).Some?))
  {
  }

  /** And for the other requests that can be refused. */
  lemma {:induction false} OtherRefusals(ref: Roster, op: Op, b: Buckets)
    ensures var no := (why: Message) => Semantics.Apply(ref, op, b).reply == Some(Reply(false, why));
            && (op.AssignVolunteer? ==>
                  && (no(UnknownVolunteer(op.volunteerId)) <==> op.volunteerId !in ref.volunteers)
                  && (no(UnknownVenue(op.venue)) <==> op.volunteerId in ref.volunteers && op.venue !in ref.venues))
            && (op.DispatchShuttle? ==>
                  (no(OverCapacity(op.shuttleId)) <==> !IsOk(Semantics.Apply(ref, op, b).reply)))
            && (op.ReserveRestaurantTable? ==>
                  && (no(UnknownAthlete(op.athleteId)) <==> op.athleteId !in ref.athletes)
                  && (no(PartyOutOfRange) <==> op.athleteId in ref.athletes && (op.partySize < 1 || op.partySize > 8)))
            && (op.SubscribeToUpdates? ==>
                  (no(UnknownSubscriber(op.subscriberId)) <==> op.subscriberId !in ref.users))
            && (op.UpdateCountryScore? ==>
                  && (no(UnknownCountry(op.countryCode)) <==> op.countryCode !in ref.countries)
                  && (no(UnknownMedal(op.medal)) <==>
                        op.countryCode in ref.countries &&
                        op.medal != "gold" && op.medal != "silver" && op.medal != "bronze"))
  {
  }

  /** What an accepted request is told; awards, dispatches, recomputations and projections report numbers as well. */
  lemma {:induction false} AcceptedReplies(ref: Roster, op: Op, b: Buckets)
    requires IsOk(Semantics.Apply(ref, op, b).reply)
    ensures var yes := Semantics.Apply(ref, op, b).reply.value;
            && (op.BookVenueSlot? ==> yes == Reply(true, BookedFor(op.venueId, op.matchId)))
            && (op.ReleaseVenueSlot? ==> yes == Reply(true, ReleasedVenue(op.venueId)))
            && (op.BookTicket? ==> yes == Reply(true, SoldTo(op.seatId, op.userId)))
            && (op.AssignVolunteer? ==> yes == Reply(true, AssignedTo(op.volunteerId, op.venue)))
            && (op.ReserveRestaurantTable? ==> yes == Reply(true, TableFor(op.partySize, op.athleteId)))
            && (op.SubscribeToUpdates? ==> yes == Reply(true, SubscribedTo(op.subscriberId, op.topic)))
            && (op.PushLiveEvent? ==> yes.Pushed? && yes.message == PushedFor(op.eventType, op.matchId))
            && (op.AllocateStream? ==> yes == Reply(true, OnAirFor(op.streamId, op.matchId)))
            && (op.GoLive? ==> yes == Reply(true, IsLiveOn(op.matchId, op.streamId)))
            && (op.RenderHighlight? ==>
                  yes == Reply(true, RenderedFor(if op.highlight.Some? then op.highlight.value else "?")))
  {
  }

  /** A score holds as many medals of a kind as there were valid awards of it. */
  lemma {:induction false} MedalsAreAwards(ref: Roster, ops: seq<Op>, c: string, medal: string)
    ensures Histories.MedalCount(ref, ops, c, medal) ==
            |Tallies.Where(ops, (op: Op) => op.UpdateCountryScore? && op.countryCode == c && op.medal == medal
                                            && c in ref.countries)|
  {
    if ops != [] {
      MedalsAreAwards(ref, ops[..|ops| - 1], c, medal);
      Tallies.OneMoreWhere(ops, (op: Op) => op.UpdateCountryScore? && op.countryCode == c && op.medal == medal
                                            && c in ref.countries);
    }
  }

  /** Undisturbed, the three calls of the chain do what one go-live does, but for the entry that says so. */
  lemma {:induction false} ChainAlone(ref: Roster, b: Buckets, m: string, stream: string)
    ensures var calls := Cascade.Chain(m, stream);
            var first := Semantics.Apply(ref, calls[0], b);
            var second := Semantics.Apply(ref, calls[1], first.buckets);
            var third := Semantics.Apply(ref, calls[2], second.buckets);
            var atomic := Semantics.Apply(ref, GoLive(m, stream, Some("match is live")), b);
            && third.buckets == atomic.buckets
            && first.entries + second.entries + third.entries + [WentLive(m, stream)] == atomic.entries
  {
  }

  // ---- What logs tell ------------------------------------------------------

  predicate IsRefusal(e: LogEntry) {
    || e.VenueRefused? || e.ReleaseRefused? || e.TicketRefused? || e.VolunteerRefused? || e.ShuttleRefused?
    || e.TableRefused? || e.SubscriptionRefused? || e.ScoreRefused?
  }

  /** A call logs a refusal exactly when it refuses, and then nothing else. */
  ghost predicate TellsRefusal(entries: seq<LogEntry>, reply: Option<Result>) {
    if reply.Some? && !reply.value.ok then |entries| == 1 && IsRefusal(entries[0])
    else forall k :: 0 <= k < |entries| ==> !IsRefusal(entries[k])
  }

  lemma PushTells(b: Buckets, m: string, eventType: string, details: string)
    ensures var e := Semantics.PushLiveEvent(b, m, eventType, details); TellsRefusal(e.entries, e.reply)
  {
  }

  lemma GoLiveTells(b: Buckets, m: string, stream: string, details: string)
    ensures var e := Semantics.GoLive(b, m, stream, details);
            TellsRefusal(e.entries, e.reply) && TellsRefusal(Monolith.GoLiveEntries(b, m, stream), e.reply)
  {
    PushTells(b, m, "live", details);
  }

  lemma {:induction false} CoreTellsRefusals(ref: Roster, op: Op, b: Buckets)
    ensures TellsRefusal(Semantics.Apply(ref, op, b).entries, Semantics.Apply(ref, op, b).reply)
  {
    match op {
      case PushLiveEvent(m, e, details) => PushTells(b, m, e, GetOr(details, ""));
      case GoLive(m, stream, details) => GoLiveTells(b, m, stream, GetOr(details, "match is live"));
      case DispatchShuttle(id, route, _, _) => ShuttleTells(b, id, route, BoardingOf(op), CapacityOf(op));
      case UpdateCountryScore(c, medal) => ScoreTells(ref, b, c, medal);
      case _ => OthersTell(ref, op, b);
    }
  }

  lemma ShuttleTells(b: Buckets, id: string, route: string, boarding: int, capacity: int)
    ensures var e := Semantics.DispatchShuttle(b, id, route, boarding, capacity); TellsRefusal(e.entries, e.reply)
  {
  }

  lemma ScoreTells(ref: Roster, b: Buckets, c: string, medal: string)
    ensures var e := Semantics.UpdateCountryScore(ref, b, c, medal); TellsRefusal(e.entries, e.reply)
  {
  }

  lemma OthersTell(ref: Roster, op: Op, b: Buckets)
    requires !op.PushLiveEvent? && !op.GoLive? && !op.DispatchShuttle? && !op.UpdateCountryScore?
    ensures TellsRefusal(Semantics.Apply(ref, op, b).entries, Semantics.Apply(ref, op, b).reply)
  {
  }

  /** The monolith's log, which words some entries differently, does the same. */
  lemma {:induction false} MonolithTellsRefusals(ref: Roster, op: Op, b: Buckets)
    ensures TellsRefusal(Monolith.Entries(ref, op, b), Semantics.Apply(ref, op, b).reply)
  {
    match op {
      case BookTicket(m, seat, user) =>
      case GoLive(m, stream, details) => GoLiveTells(b, m, stream, GetOr(details, "match is live"));
      case _ => CoreTellsRefusals(ref, op, b);
    }
  }

  /** What the core logs for a refusal. */
  lemma {:induction false} RefusalEntries(ref: Roster, op: Op, b: Buckets)
    requires Semantics.Apply(ref, op, b).reply.Some? && !IsOk(Semantics.Apply(ref, op, b).reply)
    ensures var entries := Semantics.Apply(ref, op, b).entries;
            && (op.BookVenueSlot? ==>
                  entries ==
                  [VenueRefused(op.venueId, if op.venueId in ref.venues then Some(op.matchId) else None)])
            && (op.ReleaseVenueSlot? ==> entries == [ReleaseRefused(op.venueId)])
            && (op.BookTicket? ==> entries == [TicketRefused(Some(op.matchId), op.seatId, Some(op.userId))])
            && (op.AssignVolunteer? ==>
                  entries ==
                  [VolunteerRefused(op.volunteerId, if op.volunteerId in ref.volunteers then Some(op.venue) else None)])
            && (op.SubscribeToUpdates? ==> entries == [SubscriptionRefused(op.subscriberId, op.topic)])
  {
  }

  lemma {:induction false} RefusalCounts(ref: Roster, op: Op, b: Buckets)
    requires Semantics.Apply(ref, op, b).reply.Some? && !IsOk(Semantics.Apply(ref, op, b).reply)
    ensures var entries := Semantics.Apply(ref, op, b).entries;
            && (op.DispatchShuttle? ==> entries == [ShuttleRefused(op.shuttleId, op.route)])
            && (op.ReserveRestaurantTable? ==>
                  entries ==
                  [TableRefused(op.athleteId, if op.athleteId in ref.athletes then Some(op.partySize) else None)])
            && (op.UpdateCountryScore? ==>
                  entries ==
                  [ScoreRefused(op.countryCode, if op.countryCode in ref.countries then Some(op.medal) else None)])
  {
  }

  /** What the monolith logs for one: the same, but a refused ticket's entry lacks its match or its user. */
  lemma {:induction false} MonolithRefusalEntries(ref: Roster, op: Op, b: Buckets)
    requires Semantics.Apply(ref, op, b).reply.Some? && !IsOk(Semantics.Apply(ref, op, b).reply)
    ensures Monolith.Entries(ref, op, b) ==
            if !op.BookTicket? then Semantics.Apply(ref, op, b).entries
            else if op.userId !in ref.users then [TicketRefused(None, op.seatId, Some(op.userId))]
            else [TicketRefused(Some(op.matchId), op.seatId, None)]
  {
  }

  /** What an accepted booking, release, assignment, reservation or subscription logs, on either side. */
  lemma {:induction false} AcceptedEntries(ref: Roster, op: Op, b: Buckets)
    requires IsOk(Semantics.Apply(ref, op, b).reply)
    ensures var entries := Semantics.Apply(ref, op, b).entries;
            && (op.BookVenueSlot? ==> entries == [VenueBooked(op.venueId, op.matchId)])
            && (op.ReleaseVenueSlot? ==> entries == [VenueReleased(op.venueId)])
            && (op.BookTicket? ==> entries == [TicketBooked(op.matchId, op.seatId, op.userId)])
            && (op.AssignVolunteer? ==> entries == [VolunteerAssigned(op.volunteerId, op.venue)])
            && (op.ReserveRestaurantTable? ==> entries == [TableReserved(op.athleteId, op.restaurantId)])
            && (op.SubscribeToUpdates? ==> entries == [Subscribed(op.subscriberId, op.topic)])
            && (op.AllocateStream? ==> entries == [StreamAllocated(op.streamId, op.matchId)])
    ensures !op.GoLive? ==> Monolith.Entries(ref, op, b) == Semantics.Apply(ref, op, b).entries
  {
  }

  /** An award's entry, and a dispatch's, which tells how many are aboard. */
  lemma {:induction false} AcceptedCounts(ref: Roster, op: Op, b: Buckets)
    requires IsOk(Semantics.Apply(ref, op, b).reply)
    ensures var e := Semantics.Apply(ref, op, b);
            && (op.UpdateCountryScore? ==> e.entries == [ScoreUpdated(op.countryCode, op.medal)])
            && (op.DispatchShuttle? ==>
                  e.entries ==
                  [ShuttleDispatched(op.shuttleId, op.route, Histories.PassengersOf(e.buckets, op.shuttleId))])
  {
    if op.DispatchShuttle? { Histories.ShuttleStep(ref, op, b, op.shuttleId); }
  }

  /** A push logs itself last; a go-live logs its last stage's and its own entry last, in the monolith only its own. */
  lemma {:induction false} AnnouncementEntries(ref: Roster, b: Buckets, m: string, x: string, details: Option<string>)
    ensures var entries := Semantics.Apply(ref, PushLiveEvent(m, x, details), b).entries;
            && entries != []
            && entries[|entries| - 1] == EventPushed(m, x, if details.Some? then details.value else "")
    ensures var entries := Semantics.Apply(ref, GoLive(m, x, details), b).entries;
            |entries| >= 4 && entries[|entries| - 1] == WentLive(m, x)
    ensures var entries := Monolith.Entries(ref, GoLive(m, x, details), b);
            entries != [] && entries[|entries| - 1] == WentLive(m, x)
  {
  }
}
