/** The entities of the Games system: the roster, the state's ten buckets, requests, replies and log entries. */
module Domain {

  datatype Option<+T> = None | Some(value: T)

  /** The read-only reference data every operation validates identifiers against. */
  datatype RosterData = RosterData(
    venues: set<string>,
    users: set<string>,
    volunteers: set<string>,
    athletes: set<string>,
    countries: set<string>)

  /** The empty string is nobody's user ID. */
  type Roster = r: RosterData | "" !in r.users witness RosterData({}, {}, {}, {}, {})

  // ---- Buckets -------------------------------------------------------------

  datatype VenueStatus = Free | Occupied
  datatype Venue = Venue(status: VenueStatus, heldBy: Option<string>)
  datatype Match = Match(venueId: Option<string>, seats: map<string, string>, status: Option<string>)
  datatype Shuttle = Shuttle(route: string, passengers: int, capacity: int)
  datatype Booking = Booking(athleteId: string, restaurantId: string, partySize: int)
  datatype Stream = Stream(matchId: string, status: string)
  datatype Score = Score(gold: int, silver: int, bronze: int, points: int)
  datatype Row = Row(country: string, gold: int, silver: int, bronze: int, points: int, rank: int)

  predicate Distinct<T(==)>(s: seq<T>) {
    forall i, j :: 0 <= i < j < |s| ==> s[i] != s[j]
  }

  /** A dictionary whose iteration order is the order in which its keys were first inserted. */
  datatype OrderedScores = OrderedScores(entries: map<string, Score>, order: seq<string>) {
    ghost predicate Consistent() {
      && Distinct(order)
      && (forall c :: c in order <==> c in entries)
    }
  }

  type ScoreTable = t: OrderedScores | t.Consistent() witness OrderedScores(map[], [])

  const NO_SCORES: ScoreTable := OrderedScores(map[], [])

  /** `table[country] = score`. */
  function Put(t: ScoreTable, country: string, score: Score): ScoreTable {
    OrderedScores(t.entries[country := score], if country in t.entries then t.order else t.order + [country])
  }

  /**
   * A log entry without its timestamp; the `Refused` entries are the "..._rejected" events, and None is an absent
   * field.
   */
  datatype LogEntry =
    | Delivery(topic: string, deliveredTo: string, eventType: string)
    | VenueBooked(venueId: string, matchId: string)
    | VenueRefused(venueId: string, wanted: Option<string>)
    | VenueReleased(venueId: string)
    | ReleaseRefused(venueId: string)
    | TicketBooked(matchId: string, seatId: string, userId: string)
    | TicketRefused(forMatch: Option<string>, seatId: string, forUser: Option<string>)
    | VolunteerAssigned(volunteerId: string, venueId: string)
    | VolunteerRefused(volunteerId: string, wanted: Option<string>)
    | ShuttleDispatched(shuttleId: string, route: string, passengers: int)
    | ShuttleRefused(shuttleId: string, route: string)
    | TableReserved(athleteId: string, restaurantId: string)
    | TableRefused(athleteId: string, partySize: Option<int>)
    | Subscribed(subscriberId: string, topic: string)
    | SubscriptionRefused(subscriberId: string, topic: string)
    | EventPushed(matchId: string, eventType: string, details: string)
    | ScoreUpdated(countryCode: string, medal: string)
    | ScoreRefused(countryCode: string, badMedal: Option<string>)
    | StreamAllocated(streamId: string, matchId: string)
    | StandingsRecomputed(countries: nat)
    | WentLive(matchId: string, streamId: string)

  /** The nine buckets other than the log. */
  datatype Buckets = Buckets(
    venues: map<string, Venue>,
    matches: map<string, Match>,
    volunteers: map<string, string>,
    shuttles: map<string, Shuttle>,
    restaurantBookings: map<string, Booking>,
    subscriptions: map<string, seq<string>>,
    countryScores: ScoreTable,
    standings: Option<seq<Row>>,
    streams: map<string, Stream>)

  datatype State = State(buckets: Buckets, log: seq<LogEntry>)

  const EMPTY_BUCKETS: Buckets :=
    Buckets(map[], map[], map[], map[], map[], map[], NO_SCORES, None, map[])

  const INITIAL: State := State(EMPTY_BUCKETS, [])

  // ---- Requests and replies ------------------------------------------------

  /** A well-formed request; an absent optional parameter is None. */
  datatype Op =
    | BookVenueSlot(venueId: string, matchId: string)
    | ReleaseVenueSlot(venueId: string)
    | BookTicket(matchId: string, seatId: string, userId: string)
    | AssignVolunteer(volunteerId: string, venue: string)
    | DispatchShuttle(shuttleId: string, route: string, seats: Option<int>, capacity: Option<int>)
    | ReserveRestaurantTable(athleteId: string, restaurantId: string, partySize: int)
    | SubscribeToUpdates(subscriberId: string, topic: string)
    | PushLiveEvent(matchId: string, eventType: string, details: Option<string>)
    | UpdateCountryScore(countryCode: string, medal: string)
    | AllocateStream(streamId: string, matchId: string)
    | RecomputeStandings
    | GoLive(matchId: string, streamId: string, details: Option<string>)
    | ProjectMedals(countryCode: string, iterations: Option<int>)
    | RenderHighlight(highlight: Option<string>, corrupt: bool)

  /** A reply's text: which message it is and what is interpolated into it. */
  datatype Message =
    | UnknownVenue(id: string)
    | VenueNotFree(id: string)
    | BookedFor(id: string, matchId: string)
    | WasNotOccupied(id: string)
    | ReleasedVenue(id: string)
    | UnknownUser(id: string)
    | AlreadySold(id: string)
    | SoldTo(id: string, user: string)
    | UnknownVolunteer(id: string)
    | AssignedTo(id: string, venue: string)
    | OverCapacity(id: string)
    | OnRoute(id: string, route: string, aboard: int)
    | UnknownAthlete(id: string)
    | PartyOutOfRange
    | TableFor(party: int, id: string)
    | UnknownSubscriber(id: string)
    | SubscribedTo(id: string, topic: string)
    | PushedFor(eventType: string, matchId: string)
    | UnknownCountry(id: string)
    | UnknownMedal(id: string)
    | PlusOne(id: string, medal: string)
    | OnAirFor(id: string, matchId: string)
    | RecomputedFor(countries: nat)
    | IsLiveOn(matchId: string, stream: string)
    | RenderedFor(id: string)

  datatype Result =
    | Reply(ok: bool, message: Message)
    | Pushed(ok: bool, message: Message, delivered: nat)
    | Scored(ok: bool, message: Message, points: int)
    | Projection(ok: bool, country: string, iterations: int, projectedGold: nat)

  /**
   * What a call does: the buckets it leaves, the entries it logs, and its reply, None when the process aborts
   * instead.
   */
  datatype Effect = Effect(buckets: Buckets, entries: seq<LogEntry>, reply: Option<Result>)

  predicate IsOk(reply: Option<Result>) { reply.Some? && reply.value.ok }

  function GetOr<T>(o: Option<T>, default: T): T {
    match o
    case Some(v) => v
    case None => default
  }

  function BoardingOf(op: Op): int
    requires op.DispatchShuttle?
  {
    GetOr(op.seats, 0)
  }

  function CapacityOf(op: Op): int
    requires op.DispatchShuttle?
  {
    GetOr(op.capacity, 50)
  }
}
