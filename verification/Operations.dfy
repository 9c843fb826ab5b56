/** The decoupled core: operations that mutate one state dictionary in place, each proved against its meaning. */
module Operations {
  import opened Domain
  import Semantics
  import Standings
  import MedalProjection

  class StateDict {
    var venues: map<string, Venue>
    var matches: map<string, Match>
    var volunteers: map<string, string>
    var shuttles: map<string, Shuttle>
    var restaurantBookings: map<string, Booking>
    var subscriptions: map<string, seq<string>>
    var countryScores: ScoreTable
    var standings: Option<seq<Row>>
    var streams: map<string, Stream>
    var log: seq<LogEntry>

    function Buckets(): Buckets
      reads this
    {
      Domain.Buckets.Buckets(venues, matches, volunteers, shuttles, restaurantBookings, subscriptions,
                             countryScores, standings, streams)
    }

    function Contents(): State
      reads this
    {
      State(Buckets(), log)
    }

    /** The dictionary is what `before` becomes under effect e, and e's reply is r. */
    predicate Did(before: State, e: Effect, r: Option<Result>)
      reads this
    {
      Contents() == State(e.buckets, before.log + e.entries) && e.reply == r
    }

    constructor FromBlob(s: State)
      ensures Contents() == s
    {
      venues, matches, volunteers := s.buckets.venues, s.buckets.matches, s.buckets.volunteers;
      shuttles, restaurantBookings := s.buckets.shuttles, s.buckets.restaurantBookings;
      subscriptions, countryScores := s.buckets.subscriptions, s.buckets.countryScores;
      standings, streams, log := s.buckets.standings, s.buckets.streams, s.log;
    }

    method Log(entry: LogEntry)
      modifies this`log
      ensures log == old(log) + [entry]
    {
      log := log + [entry];
    }

    method Reject(entry: LogEntry, message: Message) returns (r: Result)
      modifies this`log
      ensures log == old(log) + [entry] && r == Reply(false, message)
    {
      Log(entry);
      r := Reply(false, message);
    }

    method BookVenueSlot(ref: Roster, v: string, m: string) returns (r: Result)
      modifies this
      ensures Did(old(Contents()), Semantics.BookVenueSlot(ref, old(Buckets()), v, m), Some(r))
    {
      if v !in ref.venues {
        r := Reject(VenueRefused(v, None), UnknownVenue(v));
        return;
      }
      var venue := if v in venues then venues[v] else Venue(Free, None);
      if venue.status != Free {
        r := Reject(VenueRefused(v, Some(m)), VenueNotFree(v));
        return;
      }
      venue := venue.(status := Occupied);
      venue := venue.(heldBy := Some(m));
      venues := venues[v := venue];
      Log(VenueBooked(v, m));
      r := Reply(true, BookedFor(v, m));
    }

    method ReleaseVenueSlot(v: string) returns (r: Result)
      modifies this
      ensures Did(old(Contents()), Semantics.ReleaseVenueSlot(old(Buckets()), v), Some(r))
    {
      if v !in venues || venues[v].status == Free {
        r := Reject(ReleaseRefused(v), WasNotOccupied(v));
        return;
      }
      var venue := venues[v];
      venue := venue.(status := Free);
      venue := venue.(heldBy := None);
      venues := venues[v := venue];
      Log(VenueReleased(v));
      r := Reply(true, ReleasedVenue(v));
    }

    /** `matches.setdefault(m, {"venue_id": None, "seats": {}})`. */
    method MatchEntry(m: string) returns (entry: Match)
      modifies this`matches
      ensures entry == Semantics.MatchOf(old(Buckets()), m)
      ensures matches == old(matches)[m := entry]
    {
      if m !in matches { matches := matches[m := Match(None, map[], None)]; }
      entry := matches[m];
    }

    method BookTicket(ref: Roster, m: string, seat: string, user: string) returns (r: Result)
      modifies this
      ensures Did(old(Contents()), Semantics.BookTicket(ref, old(Buckets()), m, seat, user), Some(r))
    {
      if user !in ref.users {
        r := Reject(TicketRefused(Some(m), seat, Some(user)), UnknownUser(user));
        return;
      }
      var entry := MatchEntry(m);
      if seat in entry.seats {
        r := Reject(TicketRefused(Some(m), seat, Some(user)), AlreadySold(seat));
        return;
      }
      entry := entry.(seats := entry.seats[seat := user]);
      matches := matches[m := entry];
      assert matches == old(matches)[m := entry];
      Log(TicketBooked(m, seat, user));
      r := Reply(true, SoldTo(seat, user));
    }

    method AssignVolunteer(ref: Roster, volunteer: string, venue: string) returns (r: Result)
      modifies this
      ensures Did(old(Contents()), Semantics.AssignVolunteer(ref, old(Buckets()), volunteer, venue), Some(r))
    {
      if volunteer !in ref.volunteers {
        r := Reject(VolunteerRefused(volunteer, None), UnknownVolunteer(volunteer));
        return;
      }
      if venue !in ref.venues {
        r := Reject(VolunteerRefused(volunteer, Some(venue)), UnknownVenue(venue));
        return;
      }
      volunteers := volunteers[volunteer := venue];
      Log(VolunteerAssigned(volunteer, venue));
      r := Reply(true, AssignedTo(volunteer, venue));
    }

    method DispatchShuttle(id: string, route: string, boarding: int, capacity: int) returns (r: Result)
      modifies this
      ensures Did(old(Contents()), Semantics.DispatchShuttle(old(Buckets()), id, route, boarding, capacity), Some(r))
    {
      var shuttle := if id in shuttles then shuttles[id] else Shuttle(route, 0, capacity);
      shuttle := shuttle.(route := route);
      shuttles := shuttles[id := shuttle];
      var load := shuttle.passengers + boarding;
      if load > shuttle.capacity {
        r := Reject(ShuttleRefused(id, route), OverCapacity(id));
        return;
      }
      shuttle := shuttle.(passengers := load);
      shuttles := shuttles[id := shuttle];
      assert shuttles == old(shuttles)[id := shuttle];
      Log(ShuttleDispatched(id, route, load));
      r := Reply(true, OnRoute(id, route, load));
    }

    method ReserveRestaurantTable(ref: Roster, athlete: string, restaurant: string, party: int) returns (r: Result)
      modifies this
      ensures Did(old(Contents()),
                  Semantics.ReserveRestaurantTable(ref, old(Buckets()), athlete, restaurant, party), Some(r))
    {
      if athlete !in ref.athletes {
        r := Reject(TableRefused(athlete, None), UnknownAthlete(athlete));
        return;
      }
      if !(1 <= party <= 8) {
        r := Reject(TableRefused(athlete, Some(party)), PartyOutOfRange);
        return;
      }
      var key := restaurant + ":" + athlete;
      restaurantBookings := restaurantBookings[key := Booking(athlete, restaurant, party)];
      Log(TableReserved(athlete, restaurant));
      r := Reply(true, TableFor(party, athlete));
    }

    method SubscribeToUpdates(ref: Roster, user: string, topic: string) returns (r: Result)
      modifies this
      ensures Did(old(Contents()), Semantics.SubscribeToUpdates(ref, old(Buckets()), user, topic), Some(r))
    {
      if user !in ref.users {
        r := Reject(SubscriptionRefused(user, topic), UnknownSubscriber(user));
        return;
      }
      if topic !in subscriptions { subscriptions := subscriptions[topic := []]; }
      if user !in subscriptions[topic] {
        subscriptions := subscriptions[topic := subscriptions[topic] + [user]];
      }
      assert subscriptions == old(subscriptions)[topic := subscriptions[topic]];
      Log(Subscribed(user, topic));
      r := Reply(true, SubscribedTo(user, topic));
    }

    method PushLiveEvent(m: string, eventType: string, details: string) returns (r: Result)
      modifies this
      ensures Did(old(Contents()), Semantics.PushLiveEvent(old(Buckets()), m, eventType, details), Some(r))
    {
      var entry := MatchEntry(m);
      matches := matches[m := entry.(status := Some(eventType))];
      assert matches == old(matches)[m := entry.(status := Some(eventType))];
      var subscribers := if m in subscriptions then subscriptions[m] else [];
      ghost var b := Buckets();
      ghost var all := Semantics.Deliveries(m, subscribers, eventType);
      for i := 0 to |subscribers|
        invariant Buckets() == b
        invariant log == old(log) + all[..i]
      {
        log := log + [Delivery(m, subscribers[i], eventType)];
        assert all[..i + 1] == all[..i] + [all[i]];
      }
      assert all[..|subscribers|] == all;
      Log(EventPushed(m, eventType, details));
      r := Pushed(true, PushedFor(eventType, m), |subscribers|);
    }

    method UpdateCountryScore(ref: Roster, country: string, medal: string) returns (r: Result)
      modifies this
      ensures Did(old(Contents()), Semantics.UpdateCountryScore(ref, old(Buckets()), country, medal), Some(r))
    {
      if country !in ref.countries {
        r := Reject(ScoreRefused(country, None), UnknownCountry(country));
        return;
      }
      if medal !in ["gold", "silver", "bronze"] {
        r := Reject(ScoreRefused(country, Some(medal)), UnknownMedal(medal));
        return;
      }
      var entry := if country in countryScores.entries then countryScores.entries[country] else Score(0, 0, 0, 0);
      if medal == "gold" {
        entry := entry.(gold := entry.gold + 1);
      } else if medal == "silver" {
        entry := entry.(silver := entry.silver + 1);
      } else {
        entry := entry.(bronze := entry.bronze + 1);
      }
      entry := entry.(points := entry.points + Semantics.MedalPoints(medal));
      assert entry == Semantics.Award(Semantics.ScoreOf(old(Buckets()), country), medal);
      countryScores := Put(countryScores, country, entry);
      Log(ScoreUpdated(country, medal));
      r := Scored(true, PlusOne(country, medal), entry.points);
    }

    method AllocateStream(stream: string, m: string) returns (r: Result)
      modifies this
      ensures Did(old(Contents()), Semantics.AllocateStream(old(Buckets()), stream, m), Some(r))
    {
      streams := streams[stream := Stream(m, "on_air")];
      Log(StreamAllocated(stream, m));
      r := Reply(true, OnAirFor(stream, m));
    }

    method RecomputeStandings() returns (r: Result)
      modifies this
      ensures Did(old(Contents()), Semantics.RecomputeStandings(old(Buckets())), Some(r))
    {
      var ranking: seq<Row> := [];
      for i := 0 to |countryScores.order|
        invariant ranking == Standings.RowsOf(countryScores)[..i]
        invariant Contents() == old(Contents())
      {
        ranking := ranking + [Standings.RowOf(countryScores, countryScores.order[i])];
      }
      assert ranking == Standings.RowsOf(countryScores);
      ranking := Standings.SortRows(ranking);
      ghost var sorted := ranking;
      for i := 0 to |ranking|
        invariant |ranking| == |sorted|
        invariant forall j :: 0 <= j < i ==> ranking[j] == sorted[j].(rank := j + 1)
        invariant forall j :: i <= j < |ranking| ==> ranking[j] == sorted[j]
        invariant Contents() == old(Contents())
      {
        ranking := ranking[i := ranking[i].(rank := i + 1)];
      }
      assert ranking == Standings.Ranked(sorted);
      Standings.RankingIsStandings(countryScores);
      standings := Some(ranking);
      Log(StandingsRecomputed(|ranking|));
      r := Reply(true, RecomputedFor(|ranking|));
    }

    method GoLive(m: string, stream: string, details: string) returns (r: Result)
      modifies this
      ensures Did(old(Contents()), Semantics.GoLive(old(Buckets()), m, stream, details), Some(r))
    {
      var _ := PushLiveEvent(m, "live", details);
      var _ := AllocateStream(stream, m);
      var _ := RecomputeStandings();
      Log(WentLive(m, stream));
      r := Reply(true, IsLiveOn(m, stream));
    }

    /** The OPERATIONS registry. A None reply is an aborted process. */
    method Invoke(ref: Roster, op: Op) returns (r: Option<Result>)
      modifies this
      ensures Contents() == Semantics.After(ref, op, old(Contents()))
      ensures r == Semantics.Apply(ref, op, old(Buckets())).reply
    {
      var result: Result;
      match op {
        case BookVenueSlot(v, m) => result := BookVenueSlot(ref, v, m);
        case ReleaseVenueSlot(v) => result := ReleaseVenueSlot(v);
        case BookTicket(m, seat, user) => result := BookTicket(ref, m, seat, user);
        case AssignVolunteer(volunteer, venue) => result := AssignVolunteer(ref, volunteer, venue);
        case DispatchShuttle(id, route, _, _) => result := DispatchShuttle(id, route, BoardingOf(op), CapacityOf(op));
        case ReserveRestaurantTable(a, rest, party) => result := ReserveRestaurantTable(ref, a, rest, party);
        case SubscribeToUpdates(user, topic) => result := SubscribeToUpdates(ref, user, topic);
        case PushLiveEvent(m, e, details) => result := PushLiveEvent(m, e, GetOr(details, ""));
        case UpdateCountryScore(c, medal) => result := UpdateCountryScore(ref, c, medal);
        case AllocateStream(stream, m) => result := AllocateStream(stream, m);
        case RecomputeStandings => result := RecomputeStandings();
        case GoLive(m, stream, details) => result := GoLive(m, stream, GetOr(details, "match is live"));
        case ProjectMedals(c, n) =>
          var gold := MedalProjection.ProjectMedals(c, GetOr(n, 200000));
          result := Projection(true, c, GetOr(n, 200000), gold);
        case RenderHighlight(h, corrupt) =>
          if corrupt { return None; }
          result := Reply(true, RenderedFor(GetOr(h, "?")));
      }
      return Some(result);
    }
  }
}
