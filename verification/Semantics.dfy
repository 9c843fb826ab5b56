/** What each operation means: the state and reply it produces, and replays of whole request sequences. */
module Semantics {
  import opened Domain
  import Standings
  import MedalProjection

  function Refuse(b: Buckets, entry: LogEntry, message: Message): Effect {
    Effect(b, [entry], Some(Reply(false, message)))
  }

  function Accept(b: Buckets, entry: LogEntry, message: Message): Effect {
    Effect(b, [entry], Some(Reply(true, message)))
  }

  const FREE_VENUE := Venue(Free, None)
  const EMPTY_MATCH := Match(None, map[], None)
  const NO_SCORE := Score(0, 0, 0, 0)

  function VenueOf(b: Buckets, v: string): Venue { if v in b.venues then b.venues[v] else FREE_VENUE }
  function MatchOf(b: Buckets, m: string): Match { if m in b.matches then b.matches[m] else EMPTY_MATCH }
  function SubscribersOf(b: Buckets, topic: string): seq<string> {
    if topic in b.subscriptions then b.subscriptions[topic] else []
  }
  function ScoreOf(b: Buckets, c: string): Score {
    if c in b.countryScores.entries then b.countryScores.entries[c] else NO_SCORE
  }

  function BookVenueSlot(ref: Roster, b: Buckets, v: string, m: string): (e: Effect)
    ensures e.buckets == b.(venues := e.buckets.venues)
  {
    if v !in ref.venues then
      Refuse(b, VenueRefused(v, None), UnknownVenue(v))
    else if VenueOf(b, v).status != Free then
      Refuse(b, VenueRefused(v, Some(m)), VenueNotFree(v))
    else
      Accept(b.(venues := b.venues[v := Venue(Occupied, Some(m))]), VenueBooked(v, m),
             BookedFor(v, m))
  }

  function ReleaseVenueSlot(b: Buckets, v: string): (e: Effect)
    ensures e.buckets == b.(venues := e.buckets.venues)
  {
    if VenueOf(b, v).status == Free then
      Refuse(b, ReleaseRefused(v), WasNotOccupied(v))
    else
      Accept(b.(venues := b.venues[v := FREE_VENUE]), VenueReleased(v),
             ReleasedVenue(v))
  }

  function BookTicket(ref: Roster, b: Buckets, m: string, seat: string, user: string): (e: Effect)
    ensures e.buckets == b.(matches := e.buckets.matches)
  {
    if user !in ref.users then
      Refuse(b, TicketRefused(Some(m), seat, Some(user)), UnknownUser(user))
    else
      var match' := MatchOf(b, m);
      if seat in match'.seats then
        Refuse(b.(matches := b.matches[m := match']), TicketRefused(Some(m), seat, Some(user)), AlreadySold(seat))
      else
        Accept(b.(matches := b.matches[m := match'.(seats := match'.seats[seat := user])]), TicketBooked(m, seat, user),
               SoldTo(seat, user))
  }

  function AssignVolunteer(ref: Roster, b: Buckets, volunteer: string, venue: string): (e: Effect)
    ensures e.buckets == b.(volunteers := e.buckets.volunteers)
  {
    if volunteer !in ref.volunteers then
      Refuse(b, VolunteerRefused(volunteer, None), UnknownVolunteer(volunteer))
    else if venue !in ref.venues then
      Refuse(b, VolunteerRefused(volunteer, Some(venue)), UnknownVenue(venue))
    else
      Accept(b.(volunteers := b.volunteers[volunteer := venue]), VolunteerAssigned(volunteer, venue),
             AssignedTo(volunteer, venue))
  }

  /** The first dispatch fixes the capacity and every dispatch overwrites the route, refused or not. */
  function DispatchShuttle(b: Buckets, id: string, route: string, boarding: int, capacity: int): (e: Effect)
    ensures e.buckets == b.(shuttles := e.buckets.shuttles)
  {
    var shuttle := if id in b.shuttles then b.shuttles[id].(route := route) else Shuttle(route, 0, capacity);
    var load := shuttle.passengers + boarding;
    if load > shuttle.capacity then
      Refuse(b.(shuttles := b.shuttles[id := shuttle]), ShuttleRefused(id, route), OverCapacity(id))
    else
      Accept(b.(shuttles := b.shuttles[id := shuttle.(passengers := load)]), ShuttleDispatched(id, route, load),
             OnRoute(id, route, load))
  }

  function ReserveRestaurantTable(ref: Roster, b: Buckets, athlete: string, restaurant: string, party: int): (e: Effect)
    ensures e.buckets == b.(restaurantBookings := e.buckets.restaurantBookings)
  {
    if athlete !in ref.athletes then
      Refuse(b, TableRefused(athlete, None), UnknownAthlete(athlete))
    else if !(1 <= party <= 8) then
      Refuse(b, TableRefused(athlete, Some(party)), PartyOutOfRange)
    else
      var key := restaurant + ":" + athlete;
      Accept(b.(restaurantBookings := b.restaurantBookings[key := Booking(athlete, restaurant, party)]),
             TableReserved(athlete, restaurant), TableFor(party, athlete))
  }

  function SubscribeToUpdates(ref: Roster, b: Buckets, user: string, topic: string): (e: Effect)
    ensures e.buckets == b.(subscriptions := e.buckets.subscriptions)
  {
    if user !in ref.users then
      Refuse(b, SubscriptionRefused(user, topic), UnknownSubscriber(user))
    else
      var subs := SubscribersOf(b, topic);
      var subs' := if user in subs then subs else subs + [user];
      Accept(b.(subscriptions := b.subscriptions[topic := subs']), Subscribed(user, topic),
             SubscribedTo(user, topic))
  }

  /** One delivery per subscriber, in subscription order. */
  function Deliveries(topic: string, subs: seq<string>, eventType: string): seq<LogEntry> {
    seq(|subs|, i requires 0 <= i < |subs| => Delivery(topic, subs[i], eventType))
  }

  function SetStatus(b: Buckets, m: string, status: string): Buckets {
    b.(matches := b.matches[m := MatchOf(b, m).(status := Some(status))])
  }

  function PushLiveEvent(b: Buckets, m: string, eventType: string, details: string): (e: Effect)
    ensures e.buckets == b.(matches := e.buckets.matches)
  {
    var subs := SubscribersOf(b, m);
    Effect(SetStatus(b, m, eventType),
           Deliveries(m, subs, eventType) + [EventPushed(m, eventType, details)],
           Some(Pushed(true, PushedFor(eventType, m), |subs|)))
  }

  function MedalPoints(medal: string): int
    requires IsMedal(medal)
  {
    if medal == "gold" then 3 else if medal == "silver" then 2 else 1
  }

  predicate IsMedal(medal: string) { medal == "gold" || medal == "silver" || medal == "bronze" }

  function Award(score: Score, medal: string): Score
    requires IsMedal(medal)
  {
    var counted :=
      if medal == "gold" then score.(gold := score.gold + 1)
      else if medal == "silver" then score.(silver := score.silver + 1)
      else score.(bronze := score.bronze + 1);
    counted.(points := score.points + MedalPoints(medal))
  }

  function UpdateCountryScore(ref: Roster, b: Buckets, country: string, medal: string): (e: Effect)
    ensures e.buckets == b.(countryScores := e.buckets.countryScores)
  {
    if country !in ref.countries then
      Refuse(b, ScoreRefused(country, None), UnknownCountry(country))
    else
      if !IsMedal(medal) then
        Refuse(b, ScoreRefused(country, Some(medal)), UnknownMedal(medal))
      else
        var score := Award(ScoreOf(b, country), medal);
        Effect(b.(countryScores := Put(b.countryScores, country, score)),
               [ScoreUpdated(country, medal)],
               Some(Scored(true, PlusOne(country, medal), score.points)))
  }

  function AllocateStream(b: Buckets, stream: string, m: string): (e: Effect)
    ensures e.buckets == b.(streams := e.buckets.streams)
  {
    Accept(b.(streams := b.streams[stream := Stream(m, "on_air")]), StreamAllocated(stream, m),
           OnAirFor(stream, m))
  }

  function RecomputeStandings(b: Buckets): (e: Effect)
    ensures e.buckets == b.(standings := e.buckets.standings)
  {
    var n := |b.countryScores.order|;
    Accept(b.(standings := Some(Standings.Ranking(b.countryScores))), StandingsRecomputed(n),
           RecomputedFor(n))
  }

  /** The cascade: announce, put the stream on air, recompute. Each stage also logs its own entry. */
  function GoLive(b: Buckets, m: string, stream: string, details: string): (e: Effect)
    ensures e.buckets == b.(matches := b.matches[m := MatchOf(b, m).(status := Some("live"))],
                            streams := b.streams[stream := Stream(m, "on_air")],
                            standings := Some(Standings.Ranking(b.countryScores)))
  {
    var announced := PushLiveEvent(b, m, "live", details);
    var streaming := AllocateStream(announced.buckets, stream, m);
    var ranked := RecomputeStandings(streaming.buckets);
    Effect(ranked.buckets,
           announced.entries + streaming.entries + ranked.entries +
           [WentLive(m, stream)],
           Some(Reply(true, IsLiveOn(m, stream))))
  }

  function ProjectMedals(b: Buckets, country: string, iterations: int): Effect {
    var gold := MedalProjection.GoldCount(MedalProjection.Seed(country), MedalProjection.Draws(iterations));
    Effect(b, [], Some(Projection(true, country, iterations, gold)))
  }

  function RenderHighlight(b: Buckets, highlight: Option<string>, corrupt: bool): Effect {
    Effect(b, [], if corrupt then None else Some(Reply(true, RenderedFor(GetOr(highlight, "?")))))
  }

  function Apply(ref: Roster, op: Op, b: Buckets): Effect {
    match op
    case BookVenueSlot(v, m) => BookVenueSlot(ref, b, v, m)
    case ReleaseVenueSlot(v) => ReleaseVenueSlot(b, v)
    case BookTicket(m, seat, user) => BookTicket(ref, b, m, seat, user)
    case AssignVolunteer(volunteer, venue) => AssignVolunteer(ref, b, volunteer, venue)
    case DispatchShuttle(id, route, _, _) => DispatchShuttle(b, id, route, BoardingOf(op), CapacityOf(op))
    case ReserveRestaurantTable(a, r, party) => ReserveRestaurantTable(ref, b, a, r, party)
    case SubscribeToUpdates(user, topic) => SubscribeToUpdates(ref, b, user, topic)
    case PushLiveEvent(m, e, details) => PushLiveEvent(b, m, e, GetOr(details, ""))
    case UpdateCountryScore(c, medal) => UpdateCountryScore(ref, b, c, medal)
    case AllocateStream(stream, m) => AllocateStream(b, stream, m)
    case RecomputeStandings => RecomputeStandings(b)
    case GoLive(m, stream, details) => GoLive(b, m, stream, GetOr(details, "match is live"))
    case ProjectMedals(c, n) => ProjectMedals(b, c, GetOr(n, 200000))
    case RenderHighlight(h, corrupt) => RenderHighlight(b, h, corrupt)
  }

  // ---- Which operations touch which bucket ---------------------------------

  lemma TouchesMatches(ref: Roster, op: Op, b: Buckets)
    ensures Apply(ref, op, b).buckets.matches == b.matches || op.BookTicket? || op.PushLiveEvent? || op.GoLive?
  {
  }

  lemma TouchesVolunteers(ref: Roster, op: Op, b: Buckets)
    ensures Apply(ref, op, b).buckets.volunteers == b.volunteers || op.AssignVolunteer?
  {
  }

  lemma TouchesTables(ref: Roster, op: Op, b: Buckets)
    ensures Apply(ref, op, b).buckets.restaurantBookings == b.restaurantBookings || op.ReserveRestaurantTable?
  {
  }

  lemma TouchesVenues(ref: Roster, op: Op, b: Buckets)
    ensures Apply(ref, op, b).buckets.venues == b.venues || op.BookVenueSlot? || op.ReleaseVenueSlot?
  {
  }

  lemma TouchesShuttles(ref: Roster, op: Op, b: Buckets)
    ensures Apply(ref, op, b).buckets.shuttles == b.shuttles || op.DispatchShuttle?
  {
  }

  /** A dispatch, with the shuttle it finds or makes. */
  lemma DispatchOf(b: Buckets, id: string, route: string, boarding: int, capacity: int)
    ensures var e := DispatchShuttle(b, id, route, boarding, capacity);
            var shuttle := if id in b.shuttles then b.shuttles[id].(route := route) else Shuttle(route, 0, capacity);
            var load := shuttle.passengers + boarding;
            if load > shuttle.capacity then
              e.reply == Some(Reply(false, OverCapacity(id))) && e.buckets.shuttles == b.shuttles[id := shuttle]
            else
              && e.reply == Some(Reply(true, OnRoute(id, route, load)))
              && e.buckets.shuttles == b.shuttles[id := shuttle.(passengers := load)]
  {
  }

  lemma TouchesSubscriptions(ref: Roster, op: Op, b: Buckets)
    ensures Apply(ref, op, b).buckets.subscriptions == b.subscriptions || op.SubscribeToUpdates?
  {
  }

  lemma TouchesScores(ref: Roster, op: Op, b: Buckets)
    ensures Apply(ref, op, b).buckets.countryScores == b.countryScores || op.UpdateCountryScore?
  {
  }

  lemma TouchesStreams(ref: Roster, op: Op, b: Buckets)
    ensures Apply(ref, op, b).buckets.streams == b.streams || op.AllocateStream? || op.GoLive?
  {
  }

  lemma TouchesStandings(ref: Roster, op: Op, b: Buckets)
    ensures Apply(ref, op, b).buckets.standings == b.standings || op.RecomputeStandings? || op.GoLive?
  {
  }

  /** Only a corrupt highlight takes its process down. */
  predicate Aborts(op: Op) { op.RenderHighlight? && op.corrupt }

  lemma {:induction false} OnlyAbortsAreSilent(ref: Roster, op: Op, b: Buckets)
    ensures Apply(ref, op, b).reply.None? <==> Aborts(op)
  {
  }

  // ---- Replays -------------------------------------------------------------

  /** The state a call leaves: its buckets, and its entries appended to the log. */
  function After(ref: Roster, op: Op, s: State): State {
    var e := Apply(ref, op, s.buckets);
    State(e.buckets, s.log + e.entries)
  }

  /** The state after running the requests one at a time from the initial state. */
  function Replay(ref: Roster, ops: seq<Op>): State {
    if ops == [] then INITIAL
    else After(ref, ops[|ops| - 1], Replay(ref, ops[..|ops| - 1]))
  }

  /** The reply the i-th request of a replay gets. */
  function ReplyAt(ref: Roster, ops: seq<Op>, i: nat): Option<Result>
    requires i < |ops|
  {
    Apply(ref, ops[i], Replay(ref, ops[..i]).buckets).reply
  }

  lemma ReplayExtends(ref: Roster, ops: seq<Op>, op: Op)
    ensures Replay(ref, ops + [op]) == After(ref, op, Replay(ref, ops))
  {
    assert (ops + [op])[..|ops|] == ops;
  }

  /** Every reply of a replay, in request order. */
  function Replies(ref: Roster, ops: seq<Op>): seq<Option<Result>> {
    seq(|ops|, i requires 0 <= i < |ops| => ReplyAt(ref, ops, i))
  }

  lemma ReplyAtExtends(ref: Roster, ops: seq<Op>, op: Op, i: nat)
    requires i < |ops|
    ensures ReplyAt(ref, ops + [op], i) == ReplyAt(ref, ops, i)
  {
    assert (ops + [op])[..i] == ops[..i];
  }

  lemma {:induction false} RepliesExtend(ref: Roster, ops: seq<Op>, op: Op)
    ensures Replies(ref, ops + [op]) == Replies(ref, ops) + [Apply(ref, op, Replay(ref, ops).buckets).reply]
  {
    forall i: nat | i < |ops| ensures ReplyAt(ref, ops + [op], i) == ReplyAt(ref, ops, i) {
      ReplyAtExtends(ref, ops, op, i);
    }
    assert (ops + [op])[..|ops|] == ops;
  }
}
