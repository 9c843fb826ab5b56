/**
 * The naive monolith: module globals mutated by one giant dispatcher, proved to mean what the core's operations mean.
 */
module Monolith {
  import opened Domain
  import Semantics
  import Standings
  import MedalProjection
  import DeliveryLog

  /** `user_id or subscriber_id or volunteer_id or athlete_id or "system"`, over the keys each request carries. */
  function ActorOf(op: Op): string {
    var id := match op
      case BookTicket(_, _, user) => user
      case SubscribeToUpdates(user, _) => user
      case AssignVolunteer(volunteer, _) => volunteer
      case ReserveRestaurantTable(athlete, _, _) => athlete
      case _ => "";
    if id == "" then "system" else id
  }

  /** A request that names somebody to act for. */
  predicate CarriesId(op: Op) {
    || (op.BookTicket? && op.userId != "")
    || (op.SubscribeToUpdates? && op.subscriberId != "")
    || (op.AssignVolunteer? && op.volunteerId != "")
    || (op.ReserveRestaurantTable? && op.athleteId != "")
  }

  /** The request acts for `who`, in terms of its own fields: the actor `_dispatch` leaves in `_CTX`. */
  predicate ActsFor(op: Op, who: string) {
    && (op.BookTicket? && op.userId != "" ==> who == op.userId)
    && (op.SubscribeToUpdates? && op.subscriberId != "" ==> who == op.subscriberId)
    && (op.AssignVolunteer? && op.volunteerId != "" ==> who == op.volunteerId)
    && (op.ReserveRestaurantTable? && op.athleteId != "" ==> who == op.athleteId)
    && (!CarriesId(op) ==> who == "system")
  }

  /** Each request acts for exactly one. */
  lemma {:induction false} ActorIff(op: Op, who: string)
    ensures ActsFor(op, who) <==> who == ActorOf(op)
  {
  }

  function TicketEntries(ref: Roster, b: Buckets, m: string, seat: string, user: string): seq<LogEntry> {
    if user !in ref.users then
      [TicketRefused(None, seat, Some(user))]
    else if seat in Semantics.MatchOf(b, m).seats then
      [TicketRefused(Some(m), seat, None)]
    else
      [TicketBooked(m, seat, user)]
  }

  function GoLiveEntries(b: Buckets, m: string, stream: string): seq<LogEntry> {
    Semantics.Deliveries(m, Semantics.SubscribersOf(b, m), "live") +
    [WentLive(m, stream)]
  }

  /** What the monolith logs, which is not always what the core logs. */
  function Entries(ref: Roster, op: Op, b: Buckets): seq<LogEntry> {
    match op
    case BookTicket(m, seat, user) => TicketEntries(ref, b, m, seat, user)
    case GoLive(m, stream, _) => GoLiveEntries(b, m, stream)
    case _ => Semantics.Apply(ref, op, b).entries
  }

  function After(ref: Roster, op: Op, s: State): State {
    State(Semantics.Apply(ref, op, s.buckets).buckets, s.log + Entries(ref, op, s.buckets))
  }

  function Replay(ref: Roster, ops: seq<Op>): State {
    if ops == [] then INITIAL
    else After(ref, ops[|ops| - 1], Replay(ref, ops[..|ops| - 1]))
  }

  lemma ReplayExtends(ref: Roster, ops: seq<Op>, op: Op)
    ensures Replay(ref, ops + [op]) == After(ref, op, Replay(ref, ops))
  {
    assert (ops + [op])[..|ops|] == ops;
  }

  class Server {
    var venues: map<string, Venue>
    var matches: map<string, Match>
    var volunteers: map<string, string>
    var shuttles: map<string, Shuttle>
    var restaurants: map<string, Booking>
    var subscriptions: map<string, seq<string>>
    var scores: ScoreTable
    var standings: Option<seq<Row>>
    var streams: map<string, Stream>
    var log: seq<LogEntry>
    var actor: string

    function Globals(): Buckets
      reads this
    {
      Buckets(venues, matches, volunteers, shuttles, restaurants, subscriptions, scores, standings, streams)
    }

    function Snapshot(): State
      reads this
    {
      State(Globals(), log)
    }

    constructor ()
      ensures Snapshot() == INITIAL && actor == "system"
    {
      venues, matches, volunteers, shuttles, restaurants := map[], map[], map[], map[], map[];
      subscriptions, scores, standings, streams := map[], NO_SCORES, None, map[];
      log, actor := [], "system";
    }

    method ResetState()
      modifies this
      ensures Snapshot() == INITIAL && actor == "system"
    {
      venues, matches, volunteers, shuttles, restaurants := map[], map[], map[], map[], map[];
      subscriptions, scores, standings, streams := map[], NO_SCORES, None, map[];
      log, actor := [], "system";
    }

    method Log(entry: LogEntry)
      modifies this`log
      ensures log == old(log) + [entry]
    {
      log := log + [entry];
    }

    predicate Did(before: State, e: Effect, r: Option<Result>)
      reads this
    {
      Snapshot() == State(e.buckets, before.log + e.entries) && e.reply == r
    }

    /** `matches.setdefault(m, ...)` and the status write that follows it in `push_live_event` and `go_live`. */
    method SetStatus(m: string, status: string)
      modifies this`matches
      ensures matches == old(matches)[m := Semantics.MatchOf(old(Globals()), m).(status := Some(status))]
    {
      if m !in matches { matches := matches[m := Match(None, map[], None)]; }
      matches := matches[m := matches[m].(status := Some(status))];
    }

    /** The fan-out loop, which both `push_live_event` and `go_live` spell out inline. */
    method Deliver(m: string, subs: seq<string>, eventType: string)
      modifies this`log
      ensures log == old(log) + Semantics.Deliveries(m, subs, eventType)
    {
      ghost var all := Semantics.Deliveries(m, subs, eventType);
      for i := 0 to |subs|
        invariant log == old(log) + all[..i]
      {
        log := log + [Delivery(m, subs[i], eventType)];
        assert all[..i + 1] == all[..i] + [all[i]];
      }
      assert all[..|subs|] == all;
    }

    /** The ranking loops, which both `recompute_standings` and `go_live` spell out inline. */
    method Rerank() returns (countries: nat)
      modifies this`standings
      ensures standings == Some(Standings.Ranking(scores)) && countries == |scores.order|
    {
      var ranking: seq<Row> := [];
      for i := 0 to |scores.order|
        invariant ranking == Standings.RowsOf(scores)[..i]
      {
        ranking := ranking + [Standings.RowOf(scores, scores.order[i])];
      }
      assert ranking == Standings.RowsOf(scores);
      ranking := Standings.SortRows(ranking);
      ghost var sorted := ranking;
      for i := 0 to |ranking|
        invariant |ranking| == |sorted|
        invariant forall j :: 0 <= j < i ==> ranking[j] == sorted[j].(rank := j + 1)
        invariant forall j :: i <= j < |ranking| ==> ranking[j] == sorted[j]
      {
        ranking := ranking[i := ranking[i].(rank := i + 1)];
      }
      assert ranking == Standings.Ranked(sorted);
      Standings.RankingIsStandings(scores);
      standings := Some(ranking);
      countries := |ranking|;
    }

    method BookVenueSlot(ref: Roster, v: string, m: string) returns (r: Result)
      modifies this
      ensures actor == old(actor)
      ensures Did(old(Snapshot()), Semantics.BookVenueSlot(ref, old(Globals()), v, m), Some(r))
    {
      if v !in ref.venues {
        Log(VenueRefused(v, None));
        return Reply(false, UnknownVenue(v));
      }
      if v !in venues { venues := venues[v := Venue(Free, None)]; }
      if venues[v].status != Free {
        Log(VenueRefused(v, Some(m)));
        return Reply(false, VenueNotFree(v));
      }
      venues := venues[v := venues[v].(status := Occupied)];
      venues := venues[v := venues[v].(heldBy := Some(m))];
      assert venues == old(venues)[v := Venue(Occupied, Some(m))];
      Log(VenueBooked(v, m));
      return Reply(true, BookedFor(v, m));
    }

    method ReleaseVenueSlot(v: string) returns (r: Result)
      modifies this
      ensures actor == old(actor)
      ensures Did(old(Snapshot()), Semantics.ReleaseVenueSlot(old(Globals()), v), Some(r))
    {
      if v !in venues || venues[v].status == Free {
        Log(ReleaseRefused(v));
        return Reply(false, WasNotOccupied(v));
      }
      venues := venues[v := venues[v].(status := Free)];
      venues := venues[v := venues[v].(heldBy := None)];
      assert venues == old(venues)[v := Venue(Free, None)];
      Log(VenueReleased(v));
      return Reply(true, ReleasedVenue(v));
    }

    method BookTicket(ref: Roster, m: string, seat: string, user: string) returns (r: Result)
      requires user == "" || actor == user
      modifies this
      ensures actor == old(actor)
      ensures Snapshot() == State(Semantics.BookTicket(ref, old(Globals()), m, seat, user).buckets,
                                  old(log) + TicketEntries(ref, old(Globals()), m, seat, user))
      ensures Some(r) == Semantics.BookTicket(ref, old(Globals()), m, seat, user).reply
    {
      if user !in ref.users {
        Log(TicketRefused(None, seat, Some(user)));
        return Reply(false, UnknownUser(user));
      }
      if m !in matches { matches := matches[m := Match(None, map[], None)]; }
      if seat in matches[m].seats {
        Log(TicketRefused(Some(m), seat, None));
        return Reply(false, AlreadySold(seat));
      }
      matches := matches[m := matches[m].(seats := matches[m].seats[seat := actor])];
      assert matches == old(matches)[m := matches[m]];
      Log(TicketBooked(m, seat, user));
      return Reply(true, SoldTo(seat, user));
    }

    method AssignVolunteer(ref: Roster, volunteer: string, venue: string) returns (r: Result)
      modifies this
      ensures actor == old(actor)
      ensures Did(old(Snapshot()), Semantics.AssignVolunteer(ref, old(Globals()), volunteer, venue), Some(r))
    {
      if volunteer !in ref.volunteers {
        Log(VolunteerRefused(volunteer, None));
        return Reply(false, UnknownVolunteer(volunteer));
      }
      if venue !in ref.venues {
        Log(VolunteerRefused(volunteer, Some(venue)));
        return Reply(false, UnknownVenue(venue));
      }
      volunteers := volunteers[volunteer := venue];
      Log(VolunteerAssigned(volunteer, venue));
      return Reply(true, AssignedTo(volunteer, venue));
    }

    method DispatchShuttle(id: string, route: string, boarding: int, capacity: int) returns (r: Result)
      modifies this
      ensures actor == old(actor)
      ensures Did(old(Snapshot()), Semantics.DispatchShuttle(old(Globals()), id, route, boarding, capacity), Some(r))
    {
      if id !in shuttles { shuttles := shuttles[id := Shuttle(route, 0, capacity)]; }
      shuttles := shuttles[id := shuttles[id].(route := route)];
      ghost var shuttle :=
        if id in old(shuttles) then old(shuttles)[id].(route := route) else Shuttle(route, 0, capacity);
      assert shuttles == old(shuttles)[id := shuttle];
      if shuttles[id].passengers + boarding > shuttles[id].capacity {
        Log(ShuttleRefused(id, route));
        return Reply(false, OverCapacity(id));
      }
      shuttles := shuttles[id := shuttles[id].(passengers := shuttles[id].passengers + boarding)];
      assert shuttles == old(shuttles)[id := shuttle.(passengers := shuttle.passengers + boarding)];
      Log(ShuttleDispatched(id, route, shuttles[id].passengers));
      return Reply(true, OnRoute(id, route, shuttles[id].passengers));
    }

    method ReserveRestaurantTable(ref: Roster, athlete: string, restaurant: string, party: int) returns (r: Result)
      modifies this
      ensures actor == old(actor)
      ensures Did(old(Snapshot()), Semantics.ReserveRestaurantTable(ref, old(Globals()), athlete, restaurant, party),
                  Some(r))
    {
      if athlete !in ref.athletes {
        Log(TableRefused(athlete, None));
        return Reply(false, UnknownAthlete(athlete));
      }
      if party < 1 || party > 8 {
        Log(TableRefused(athlete, Some(party)));
        return Reply(false, PartyOutOfRange);
      }
      restaurants := restaurants[restaurant + ":" + athlete := Booking(athlete, restaurant, party)];
      Log(TableReserved(athlete, restaurant));
      return Reply(true, TableFor(party, athlete));
    }

    method SubscribeToUpdates(ref: Roster, user: string, topic: string) returns (r: Result)
      modifies this
      ensures actor == old(actor)
      ensures Did(old(Snapshot()), Semantics.SubscribeToUpdates(ref, old(Globals()), user, topic), Some(r))
    {
      if user !in ref.users {
        Log(SubscriptionRefused(user, topic));
        return Reply(false, UnknownSubscriber(user));
      }
      if topic !in subscriptions { subscriptions := subscriptions[topic := []]; }
      if user !in subscriptions[topic] {
        subscriptions := subscriptions[topic := subscriptions[topic] + [user]];
      }
      assert subscriptions == old(subscriptions)[topic := subscriptions[topic]];
      Log(Subscribed(user, topic));
      return Reply(true, SubscribedTo(user, topic));
    }

    method PushLiveEvent(m: string, eventType: string, details: string) returns (r: Result)
      modifies this
      ensures actor == old(actor)
      ensures Did(old(Snapshot()), Semantics.PushLiveEvent(old(Globals()), m, eventType, details), Some(r))
    {
      SetStatus(m, eventType);
      var subs := if m in subscriptions then subscriptions[m] else [];
      Deliver(m, subs, eventType);
      Log(EventPushed(m, eventType, details));
      return Pushed(true, PushedFor(eventType, m), |subs|);
    }

    method UpdateCountryScore(ref: Roster, country: string, medal: string) returns (r: Result)
      modifies this
      ensures actor == old(actor)
      ensures Did(old(Snapshot()), Semantics.UpdateCountryScore(ref, old(Globals()), country, medal), Some(r))
    {
      if country !in ref.countries {
        Log(ScoreRefused(country, None));
        return Reply(false, UnknownCountry(country));
      }
      if !Semantics.IsMedal(medal) {
        Log(ScoreRefused(country, Some(medal)));
        return Reply(false, UnknownMedal(medal));
      }
      if country !in scores.entries { scores := Put(scores, country, Score(0, 0, 0, 0)); }
      var e := scores.entries[country];
      assert e == Semantics.ScoreOf(old(Globals()), country);
      if medal == "gold" {
        e := e.(gold := e.gold + 1);
      } else if medal == "silver" {
        e := e.(silver := e.silver + 1);
      } else {
        e := e.(bronze := e.bronze + 1);
      }
      e := e.(points := e.points + Semantics.MedalPoints(medal));
      assert e == Semantics.Award(Semantics.ScoreOf(old(Globals()), country), medal);
      scores := Put(scores, country, e);
      assert scores.entries == old(scores).entries[country := e];
      Log(ScoreUpdated(country, medal));
      return Scored(true, PlusOne(country, medal), e.points);
    }

    method AllocateStream(stream: string, m: string) returns (r: Result)
      modifies this
      ensures actor == old(actor)
      ensures Did(old(Snapshot()), Semantics.AllocateStream(old(Globals()), stream, m), Some(r))
    {
      streams := streams[stream := Stream(m, "on_air")];
      Log(StreamAllocated(stream, m));
      return Reply(true, OnAirFor(stream, m));
    }

    method RecomputeStandings() returns (r: Result)
      modifies this
      ensures actor == old(actor)
      ensures Did(old(Snapshot()), Semantics.RecomputeStandings(old(Globals())), Some(r))
    {
      var n := Rerank();
      Log(StandingsRecomputed(n));
      return Reply(true, RecomputedFor(n));
    }

    method GoLive(m: string, stream: string, ghost details: string) returns (r: Result)
      modifies this
      ensures actor == old(actor)
      ensures Globals() == Semantics.GoLive(old(Globals()), m, stream, details).buckets
      ensures log == old(log) + GoLiveEntries(old(Globals()), m, stream)
      ensures r == Reply(true, IsLiveOn(m, stream))
    {
      SetStatus(m, "live");
      var subs := if m in subscriptions then subscriptions[m] else [];
      Deliver(m, subs, "live");
      streams := streams[stream := Stream(m, "on_air")];
      var _ := Rerank();
      assert Globals() == Semantics.GoLive(old(Globals()), m, stream, details).buckets;
      Log(WentLive(m, stream));
      Regrouped(old(log), Semantics.Deliveries(m, subs, "live"), [WentLive(m, stream)]);
      return Reply(true, IsLiveOn(m, stream));
    }

    /** The giant dispatcher; each method above is one branch of its if/elif chain. */
    method Dispatch(ref: Roster, op: Op) returns (r: Option<Result>)
      modifies this
      ensures Snapshot() == After(ref, op, old(Snapshot()))
      ensures r == Semantics.Apply(ref, op, old(Globals())).reply
      ensures actor == ActorOf(op)
    {
      actor := ActorOf(op);
      var result: Result;
      match op {
        case BookVenueSlot(v, m) => result := BookVenueSlot(ref, v, m);
        case ReleaseVenueSlot(v) => result := ReleaseVenueSlot(v);
        case BookTicket(m, seat, user) => result := BookTicket(ref, m, seat, user);
        case AssignVolunteer(volunteer, venue) => result := AssignVolunteer(ref, volunteer, venue);
        case DispatchShuttle(id, route, _, _) => result := DispatchShuttle(id, route, BoardingOf(op), CapacityOf(op));
        case ReserveRestaurantTable(athlete, restaurant, party) =>
          result := ReserveRestaurantTable(ref, athlete, restaurant, party);
        case SubscribeToUpdates(user, topic) => result := SubscribeToUpdates(ref, user, topic);
        case PushLiveEvent(m, eventType, details) => result := PushLiveEvent(m, eventType, GetOr(details, ""));
        case UpdateCountryScore(country, medal) => result := UpdateCountryScore(ref, country, medal);
        case AllocateStream(stream, m) => result := AllocateStream(stream, m);
        case RecomputeStandings => result := RecomputeStandings();
        case GoLive(m, stream, details) => result := GoLive(m, stream, GetOr(details, "match is live"));
        case ProjectMedals(country, iterations) =>
          var gold := MedalProjection.ProjectMedals(country, GetOr(iterations, 200000));
          result := Projection(true, country, GetOr(iterations, 200000), gold);
        case RenderHighlight(highlight, corrupt) =>
          if corrupt { return None; }
          result := Reply(true, RenderedFor(GetOr(highlight, "?")));
      }
      return Some(result);
    }

    /** `handle`, called after the requests in `past`. */
    method Handle(ref: Roster, op: Op, ghost past: seq<Op>) returns (r: Option<Result>)
      requires Snapshot() == Replay(ref, past)
      modifies this
      ensures Snapshot() == Replay(ref, past + [op])
      ensures Semantics.Replies(ref, past + [op]) == Semantics.Replies(ref, past) + [r]
      ensures r.None? <==> Semantics.Aborts(op)
      ensures ActsFor(op, actor)
    {
      r := Dispatch(ref, op);
      ActorIff(op, actor);
      NextReply(ref, past, op);
      Semantics.OnlyAbortsAreSilent(ref, op, Replay(ref, past).buckets);
    }

    /** Replays a workload through `handle`; a corrupt highlight kills the process on the way. */
    method RunWorkload(ref: Roster, events: seq<Op>) returns (replies: seq<Option<Result>>, died: bool)
      requires Snapshot() == INITIAL
      modifies this
      ensures died <==> exists e :: e in events && Semantics.Aborts(e)
      ensures !died ==> Snapshot() == Replay(ref, events) && replies == Semantics.Replies(ref, events)
    {
      replies, died := [], false;
      for i := 0 to |events|
        invariant forall e :: e in events[..i] ==> !Semantics.Aborts(e)
        invariant Snapshot() == Replay(ref, events[..i])
        invariant replies == Semantics.Replies(ref, events[..i])
      {
        assert events[..i + 1] == events[..i] + [events[i]];
        var r := Handle(ref, events[i], events[..i]);
        if r.None? {
          assert events[i] in events;
          return replies, true;
        }
        replies := replies + [r];
      }
      assert events[..|events|] == events;
    }
  }

  lemma Regrouped<T>(a: seq<T>, b: seq<T>, c: seq<T>)
    ensures (a + b) + c == a + (b + c)
  {
  }

  // ---- The two implementations agree ---------------------------------------

  lemma MonolithFanOut(ref: Roster, op: Op, b: Buckets)
    ensures DeliveryLog.OnlyDeliveries(Entries(ref, op, b)) == DeliveryLog.FanOut(op, b)
  {
    match op {
      case BookTicket(m, seat, user) => DeliveryLog.NothingKept(TicketEntries(ref, b, m, seat, user));
      case GoLive(m, stream, details) =>
        DeliveryLog.FanOutThen(m, Semantics.SubscribersOf(b, m), "live", [WentLive(m, stream)]);
      case _ => SharedFanOut(ref, op, b);
    }
  }

  lemma SharedFanOut(ref: Roster, op: Op, b: Buckets)
    requires !op.BookTicket? && !op.GoLive?
    ensures DeliveryLog.OnlyDeliveries(Entries(ref, op, b)) == DeliveryLog.FanOut(op, b)
  {
    DeliveryLog.CoreFanOut(ref, op, b);
  }

  lemma {:induction false} SameBuckets(ref: Roster, ops: seq<Op>)
    ensures Replay(ref, ops).buckets == Semantics.Replay(ref, ops).buckets
  {
    if ops != [] { SameBuckets(ref, ops[..|ops| - 1]); }
  }

  lemma {:induction false} NextReply(ref: Roster, past: seq<Op>, op: Op)
    ensures Replay(ref, past + [op]) == After(ref, op, Replay(ref, past))
    ensures Semantics.Replies(ref, past + [op]) ==
            Semantics.Replies(ref, past) + [Semantics.Apply(ref, op, Replay(ref, past).buckets).reply]
  {
    SameBuckets(ref, past);
    ReplayExtends(ref, past, op);
    Semantics.RepliesExtend(ref, past, op);
  }

  /** Replaying any requests on either side gives the same nine buckets and the same deliveries in the same order. */
  lemma {:induction false} SameDeliveries(ref: Roster, ops: seq<Op>)
    ensures DeliveryLog.OnlyDeliveries(Replay(ref, ops).log) ==
            DeliveryLog.OnlyDeliveries(Semantics.Replay(ref, ops).log)
  {
    if ops != [] {
      var init, op := ops[..|ops| - 1], ops[|ops| - 1];
      SameDeliveries(ref, init);
      SameBuckets(ref, init);
      var s, t := Replay(ref, init), Semantics.Replay(ref, init);
      DeliveryLog.OnlyDeliveriesSplits(s.log, Entries(ref, op, s.buckets));
      DeliveryLog.OnlyDeliveriesSplits(t.log, Semantics.Apply(ref, op, t.buckets).entries);
      DeliveryLog.CoreFanOut(ref, op, t.buckets);
      MonolithFanOut(ref, op, s.buckets);
    }
  }
}
