/**
 * The monolith under threads: each request is a program of single reads and writes of the globals, and any
 * interleaving of those steps can happen, with or without the coarse lock.
 */
module MonolithThreads {
  import opened Domain
  import Semantics
  import Monolith
  import Standings
  import MedalProjection

  /** The globals and the `_CTX` cell. */
  datatype Memory = Memory(state: State, actor: string)

  /** Where a request is, with what it holds in local variables. */
  datatype Pc =
    | Enter                                             // about to write _CTX
    | Begin                                             // roster check and first access
    | Examine                                           // about to read the guard
    | Deny                                              // about to log the rejection
    | Mark                                              // about to write a status or a route
    | Hold                                              // about to write held_by
    | Window                                            // between the seat check and reading _CTX
    | Sell(buyer: string)
    | ReadLoad
    | Board(load: int)
    | LogLoad
    | Append
    | FindSubscribers
    | Deliver(next: nat, live: bool)                    // live: the list is the global one, not a fresh []
    | Send(next: nat, user: string)
    | OnAir
    | StartScan
    | Scan(next: nat, size: nat, rows: seq<Row>)
    | Copy(next: nat, size: nat, rows: seq<Row>, row: Row, field: nat)  // about to read that number of a row
    | Publish(rows: seq<Row>)
    | ReadMedal
    | WriteMedal(count: int)
    | ReadPoints
    | WritePoints(points: int)
    | Record(value: int, live: bool)                    // about to log success
    | ReadBack(live: bool)                              // about to read what the reply reports
    | Return(reply: Result)
    | Raise                                             // an exception left the dispatcher
    | Die                                               // the process aborted

  datatype Config = At(pc: Pc, mem: Memory)

  function Logging(mem: Memory, entry: LogEntry): Memory {
    mem.(state := mem.state.(log := mem.state.log + [entry]))
  }

  function With(mem: Memory, b: Buckets): Memory {
    mem.(state := mem.state.(buckets := b))
  }

  function PutVenue(mem: Memory, v: string, venue: Venue): (r: Memory)
    ensures VenueAt(r, v) == venue
  {
    With(mem, mem.state.buckets.(venues := mem.state.buckets.venues[v := venue]))
  }

  function PutMatch(mem: Memory, m: string, entry: Match): (r: Memory)
    ensures MatchAt(r, m) == entry
  {
    With(mem, mem.state.buckets.(matches := mem.state.buckets.matches[m := entry]))
  }

  function PutShuttle(mem: Memory, id: string, shuttle: Shuttle): (r: Memory)
    ensures id in r.state.buckets.shuttles && ShuttleAt(r, id) == shuttle
  {
    With(mem, mem.state.buckets.(shuttles := mem.state.buckets.shuttles[id := shuttle]))
  }

  function PutScore(mem: Memory, c: string, score: Score): (r: Memory)
    ensures ScoreAt(r, c) == score
  {
    With(mem, mem.state.buckets.(countryScores := Put(mem.state.buckets.countryScores, c, score)))
  }

  function VenueAt(mem: Memory, v: string): Venue { Semantics.VenueOf(mem.state.buckets, v) }
  function MatchAt(mem: Memory, m: string): Match { Semantics.MatchOf(mem.state.buckets, m) }
  function ScoreAt(mem: Memory, c: string): Score { Semantics.ScoreOf(mem.state.buckets, c) }
  function ShuttleAt(mem: Memory, id: string): Shuttle {
    if id in mem.state.buckets.shuttles then mem.state.buckets.shuttles[id] else Shuttle("", 0, 0)
  }

  function BookVenueSlot(ref: Roster, v: string, m: string, pc: Pc, mem: Memory): (next: Config)
    ensures next.mem.state.buckets.matches == mem.state.buckets.matches
  {
    match pc
    case Begin =>
      if v !in ref.venues then At(Return(Reply(false, UnknownVenue(v))), Logging(mem, VenueRefused(v, None)))
      else At(Examine, PutVenue(mem, v, VenueAt(mem, v)))
    case Examine => At(if VenueAt(mem, v).status != Free then Deny else Mark, mem)
    case Deny => At(Return(Reply(false, VenueNotFree(v))), Logging(mem, VenueRefused(v, Some(m))))
    case Mark => At(Hold, PutVenue(mem, v, VenueAt(mem, v).(status := Occupied)))
    case Hold => At(Record(0, true), PutVenue(mem, v, VenueAt(mem, v).(heldBy := Some(m))))
    case Record(_, _) => At(Return(Reply(true, BookedFor(v, m))), Logging(mem, VenueBooked(v, m)))
    case _ => At(pc, mem)
  }

  function ReleaseVenueSlot(v: string, pc: Pc, mem: Memory): (next: Config)
    ensures next.mem.state.buckets.matches == mem.state.buckets.matches
  {
    match pc
    case Begin => At(if v in mem.state.buckets.venues then Examine else Deny, mem)
    case Examine => At(if VenueAt(mem, v).status == Free then Deny else Mark, mem)
    case Deny => At(Return(Reply(false, WasNotOccupied(v))), Logging(mem, ReleaseRefused(v)))
    case Mark => At(Hold, PutVenue(mem, v, VenueAt(mem, v).(status := Free)))
    case Hold => At(Record(0, true), PutVenue(mem, v, VenueAt(mem, v).(heldBy := None)))
    case Record(_, _) => At(Return(Reply(true, ReleasedVenue(v))), Logging(mem, VenueReleased(v)))
    case _ => At(pc, mem)
  }

  /** The seat goes to whoever `_CTX` names when it is read, not to the `user` of this request. */
  function BookTicket(ref: Roster, m: string, seat: string, user: string, pc: Pc, mem: Memory): (next: Config)
    ensures next.mem.state.buckets.venues == mem.state.buckets.venues
  {
    match pc
    case Begin =>
      if user !in ref.users then
        At(Return(Reply(false, UnknownUser(user))), Logging(mem, TicketRefused(None, seat, Some(user))))
      else At(Examine, PutMatch(mem, m, MatchAt(mem, m)))
    case Examine => At(if seat in MatchAt(mem, m).seats then Deny else Window, mem)
    case Deny => At(Return(Reply(false, AlreadySold(seat))), Logging(mem, TicketRefused(Some(m), seat, None)))
    case Window => At(Sell(mem.actor), mem)
    case Sell(buyer) =>
      At(Record(0, true), PutMatch(mem, m, MatchAt(mem, m).(seats := MatchAt(mem, m).seats[seat := buyer])))
    case Record(_, _) => At(Return(Reply(true, SoldTo(seat, user))), Logging(mem, TicketBooked(m, seat, user)))
    case _ => At(pc, mem)
  }

  function AssignVolunteer(ref: Roster, volunteer: string, venue: string, pc: Pc, mem: Memory): (next: Config)
    ensures next.mem.state.buckets.venues == mem.state.buckets.venues
    ensures next.mem.state.buckets.matches == mem.state.buckets.matches
  {
    match pc
    case Begin =>
      if volunteer !in ref.volunteers then
        At(Return(Reply(false, UnknownVolunteer(volunteer))), Logging(mem, VolunteerRefused(volunteer, None)))
      else if venue !in ref.venues then
        At(Return(Reply(false, UnknownVenue(venue))), Logging(mem, VolunteerRefused(volunteer, Some(venue))))
      else
        var b := mem.state.buckets;
        At(Record(0, true), With(mem, b.(volunteers := b.volunteers[volunteer := venue])))
    case Record(_, _) =>
      At(Return(Reply(true, AssignedTo(volunteer, venue))), Logging(mem, VolunteerAssigned(volunteer, venue)))
    case _ => At(pc, mem)
  }

  function DispatchShuttle(id: string, route: string, boarding: int, capacity: int, pc: Pc, mem: Memory): (next: Config)
    ensures next.mem.state.buckets.venues == mem.state.buckets.venues
    ensures next.mem.state.buckets.matches == mem.state.buckets.matches
  {
    match pc
    case Begin =>
      At(Mark, if id in mem.state.buckets.shuttles then mem else PutShuttle(mem, id, Shuttle(route, 0, capacity)))
    case Mark => At(Examine, PutShuttle(mem, id, ShuttleAt(mem, id).(route := route)))
    case Examine =>
      At(if ShuttleAt(mem, id).passengers + boarding > ShuttleAt(mem, id).capacity then Deny else ReadLoad, mem)
    case Deny => At(Return(Reply(false, OverCapacity(id))), Logging(mem, ShuttleRefused(id, route)))
    case ReadLoad => At(Board(ShuttleAt(mem, id).passengers), mem)
    case Board(load) => At(LogLoad, PutShuttle(mem, id, ShuttleAt(mem, id).(passengers := load + boarding)))
    case LogLoad => At(Record(ShuttleAt(mem, id).passengers, true), mem)
    case Record(load, _) => At(ReadBack(true), Logging(mem, ShuttleDispatched(id, route, load)))
    case ReadBack(_) => At(Return(Reply(true, OnRoute(id, route, ShuttleAt(mem, id).passengers))), mem)
    case _ => At(pc, mem)
  }

  function ReserveRestaurantTable(ref: Roster, athlete: string, restaurant: string, party: int, pc: Pc,
                                  mem: Memory): (next: Config)
    ensures next.mem.state.buckets.venues == mem.state.buckets.venues
    ensures next.mem.state.buckets.matches == mem.state.buckets.matches
  {
    match pc
    case Begin =>
      if athlete !in ref.athletes then
        At(Return(Reply(false, UnknownAthlete(athlete))), Logging(mem, TableRefused(athlete, None)))
      else if party < 1 || party > 8 then
        At(Return(Reply(false, PartyOutOfRange)), Logging(mem, TableRefused(athlete, Some(party))))
      else
        var b := mem.state.buckets;
        var key := restaurant + ":" + athlete;
        At(Record(0, true),
           With(mem, b.(restaurantBookings := b.restaurantBookings[key := Booking(athlete, restaurant, party)])))
    case Record(_, _) =>
      At(Return(Reply(true, TableFor(party, athlete))), Logging(mem, TableReserved(athlete, restaurant)))
    case _ => At(pc, mem)
  }

  function PutSubscribers(mem: Memory, topic: string, subs: seq<string>): (r: Memory)
    ensures SubscribersAt(r, topic) == subs
  {
    With(mem, mem.state.buckets.(subscriptions := mem.state.buckets.subscriptions[topic := subs]))
  }

  function SubscribersAt(mem: Memory, topic: string): seq<string> {
    Semantics.SubscribersOf(mem.state.buckets, topic)
  }

  function SubscribeToUpdates(ref: Roster, user: string, topic: string, pc: Pc, mem: Memory): (next: Config)
    ensures next.mem.state.buckets.venues == mem.state.buckets.venues
    ensures next.mem.state.buckets.matches == mem.state.buckets.matches
  {
    match pc
    case Begin =>
      if user !in ref.users then
        At(Return(Reply(false, UnknownSubscriber(user))), Logging(mem, SubscriptionRefused(user, topic)))
      else At(Examine, PutSubscribers(mem, topic, SubscribersAt(mem, topic)))
    case Examine => At(if user in SubscribersAt(mem, topic) then Record(0, true) else Append, mem)
    case Append => At(Record(0, true), PutSubscribers(mem, topic, SubscribersAt(mem, topic) + [user]))
    case Record(_, _) => At(Return(Reply(true, SubscribedTo(user, topic))), Logging(mem, Subscribed(user, topic)))
    case _ => At(pc, mem)
  }

  /** The steps a push and a go-live share. */
  function Announce(m: string, status: string, pc: Pc, mem: Memory): (next: Config)
    ensures next.mem.state.buckets.venues == mem.state.buckets.venues
  {
    match pc
    case Begin => At(Mark, PutMatch(mem, m, MatchAt(mem, m)))
    case Mark => At(FindSubscribers, PutMatch(mem, m, MatchAt(mem, m).(status := Some(status))))
    case FindSubscribers => At(Deliver(0, m in mem.state.buckets.subscriptions), mem)
    case Send(k, user) => At(Deliver(k + 1, true), Logging(mem, Delivery(m, user, status)))
    case _ => At(pc, mem)
  }

  /** The next step of iterating over the live subscriber list, `done` when it is exhausted. */
  function NextDelivery(m: string, k: nat, live: bool, done: Pc, mem: Memory): (next: Config)
    ensures next.mem.state.buckets.venues == mem.state.buckets.venues
  {
    if live && k < |SubscribersAt(mem, m)| then At(Send(k, SubscribersAt(mem, m)[k]), mem) else At(done, mem)
  }

  predicate Announcing(pc: Pc) { pc.Begin? || pc.Mark? || pc.FindSubscribers? || pc.Send? }

  function PushLiveEvent(m: string, eventType: string, details: string, pc: Pc, mem: Memory): (next: Config)
    ensures next.mem.state.buckets.venues == mem.state.buckets.venues
  {
    if Announcing(pc) then Announce(m, eventType, pc, mem)
    else if pc.Deliver? then NextDelivery(m, pc.next, pc.live, Record(0, pc.live), mem)
    else if pc.Record? then At(ReadBack(pc.live), Logging(mem, EventPushed(m, eventType, details)))
    else if pc.ReadBack? then
      At(Return(Pushed(true, PushedFor(eventType, m), if pc.live then |SubscribersAt(mem, m)| else 0)), mem)
    else At(pc, mem)
  }

  function Count(score: Score, medal: string): int {
    if medal == "gold" then score.gold else if medal == "silver" then score.silver else score.bronze
  }

  function SetCount(score: Score, medal: string, n: int): (r: Score)
    ensures r.points == score.points
  {
    if medal == "gold" then score.(gold := n)
    else if medal == "silver" then score.(silver := n)
    else score.(bronze := n)
  }

  function UpdateCountryScore(ref: Roster, c: string, medal: string, pc: Pc, mem: Memory): (next: Config)
    ensures next.mem.state.buckets.venues == mem.state.buckets.venues
    ensures next.mem.state.buckets.matches == mem.state.buckets.matches
  {
    var score := ScoreAt(mem, c);
    match pc
    case Begin =>
      if c !in ref.countries then
        At(Return(Reply(false, UnknownCountry(c))), Logging(mem, ScoreRefused(c, None)))
      else if !Semantics.IsMedal(medal) then
        At(Return(Reply(false, UnknownMedal(medal))), Logging(mem, ScoreRefused(c, Some(medal))))
      else At(ReadMedal, PutScore(mem, c, score))
    case ReadMedal => At(WriteMedal(Count(score, medal)), mem)
    case WriteMedal(n) => At(ReadPoints, PutScore(mem, c, SetCount(score, medal, n + 1)))
    case ReadPoints => At(WritePoints(score.points), mem)
    case WritePoints(n) =>
      if Semantics.IsMedal(medal) then
        At(Record(0, true), PutScore(mem, c, score.(points := n + Semantics.MedalPoints(medal))))
      else At(pc, mem)
    case Record(_, _) => At(ReadBack(true), Logging(mem, ScoreUpdated(c, medal)))
    case ReadBack(_) => At(Return(Scored(true, PlusOne(c, medal), score.points)), mem)
    case _ => At(pc, mem)
  }

  function AllocateStream(stream: string, m: string, pc: Pc, mem: Memory): (next: Config)
    ensures next.mem.state.buckets.venues == mem.state.buckets.venues
    ensures next.mem.state.buckets.matches == mem.state.buckets.matches
  {
    match pc
    case Begin => At(Record(0, true), PutStream(mem, stream, m))
    case Record(_, _) => At(Return(Reply(true, OnAirFor(stream, m))), Logging(mem, StreamAllocated(stream, m)))
    case _ => At(pc, mem)
  }

  function PutStream(mem: Memory, stream: string, m: string): Memory {
    With(mem, mem.state.buckets.(streams := mem.state.buckets.streams[stream := Stream(m, "on_air")]))
  }

  /**
   * Iterating over the scores raises if their number changed since the iteration began. An entry's four numbers are
   * read one at a time.
   */
  function Rerank(pc: Pc, mem: Memory): (next: Config)
    ensures next.mem.state.buckets.venues == mem.state.buckets.venues
    ensures next.mem.state.buckets.matches == mem.state.buckets.matches
  {
    var t := mem.state.buckets.countryScores;
    match pc
    case StartScan => At(Scan(0, |t.order|, []), mem)
    case Scan(k, size, rows) =>
      if |t.order| != size then At(Raise, mem)
      else if k < size then At(Copy(k + 1, size, rows, Row(t.order[k], 0, 0, 0, 0, 0), 0), mem)
      else At(Publish(rows), mem)
    case Copy(k, size, rows, row, field) =>
      var score := ScoreAt(mem, row.country);
      if field == 0 then At(Copy(k, size, rows, row.(gold := score.gold), 1), mem)
      else if field == 1 then At(Copy(k, size, rows, row.(silver := score.silver), 2), mem)
      else if field == 2 then At(Copy(k, size, rows, row.(bronze := score.bronze), 3), mem)
      else At(Scan(k, size, rows + [row.(points := score.points)]), mem)
    case Publish(rows) =>
      At(Record(|rows|, true),
         With(mem, mem.state.buckets.(standings := Some(Standings.Ranked(Standings.SortRows(rows))))))
    case _ => At(pc, mem)
  }

  predicate Scanning(pc: Pc) { pc.StartScan? || pc.Scan? || pc.Copy? || pc.Publish? }

  function RecomputeStandings(pc: Pc, mem: Memory): (next: Config)
    ensures next.mem.state.buckets.venues == mem.state.buckets.venues
    ensures next.mem.state.buckets.matches == mem.state.buckets.matches
  {
    if Scanning(pc) then Rerank(pc, mem)
    else if pc.Begin? then At(StartScan, mem)
    else if pc.Record? && pc.value >= 0 then
      At(Return(Reply(true, RecomputedFor(pc.value))), Logging(mem, StandingsRecomputed(pc.value)))
    else At(pc, mem)
  }

  function GoLive(m: string, stream: string, pc: Pc, mem: Memory): (next: Config)
    ensures next.mem.state.buckets.venues == mem.state.buckets.venues
  {
    if Scanning(pc) then Rerank(pc, mem)
    else if Announcing(pc) then Announce(m, "live", pc, mem)
    else if pc.Deliver? then NextDelivery(m, pc.next, pc.live, OnAir, mem)
    else if pc.OnAir? then At(StartScan, PutStream(mem, stream, m))
    else if pc.Record? then At(Return(Reply(true, IsLiveOn(m, stream))), Logging(mem, WentLive(m, stream)))
    else At(pc, mem)
  }

  function ProjectMedals(country: string, iterations: int, pc: Pc, mem: Memory): (next: Config)
    ensures next.mem.state.buckets.venues == mem.state.buckets.venues
    ensures next.mem.state.buckets.matches == mem.state.buckets.matches
  {
    match pc
    case Begin =>
      var gold := MedalProjection.GoldCount(MedalProjection.Seed(country), MedalProjection.Draws(iterations));
      At(Return(Projection(true, country, iterations, gold)), mem)
    case _ => At(pc, mem)
  }

  function RenderHighlight(highlight: Option<string>, corrupt: bool, pc: Pc, mem: Memory): (next: Config)
    ensures next.mem.state.buckets.venues == mem.state.buckets.venues
    ensures next.mem.state.buckets.matches == mem.state.buckets.matches
  {
    match pc
    case Begin => At(if corrupt then Die else Return(Reply(true, RenderedFor(GetOr(highlight, "?")))), mem)
    case _ => At(pc, mem)
  }

  predicate Terminal(pc: Pc) { pc.Return? || pc.Raise? || pc.Die? }

  /** One step of a request; a finished one stays where it is. */
  function Micro(ref: Roster, op: Op, c: Config): Config {
    if Terminal(c.pc) then c
    else if c.pc.Enter? then At(Begin, c.mem.(actor := Monolith.ActorOf(op)))
    else
      var pc, mem := c.pc, c.mem;
      match op
      case BookVenueSlot(v, m) => BookVenueSlot(ref, v, m, pc, mem)
      case ReleaseVenueSlot(v) => ReleaseVenueSlot(v, pc, mem)
      case BookTicket(m, seat, user) => BookTicket(ref, m, seat, user, pc, mem)
      case AssignVolunteer(volunteer, venue) => AssignVolunteer(ref, volunteer, venue, pc, mem)
      case DispatchShuttle(id, route, _, _) => DispatchShuttle(id, route, BoardingOf(op), CapacityOf(op), pc, mem)
      case ReserveRestaurantTable(a, r, party) => ReserveRestaurantTable(ref, a, r, party, pc, mem)
      case SubscribeToUpdates(user, topic) => SubscribeToUpdates(ref, user, topic, pc, mem)
      case PushLiveEvent(m, e, details) => PushLiveEvent(m, e, GetOr(details, ""), pc, mem)
      case UpdateCountryScore(country, medal) => UpdateCountryScore(ref, country, medal, pc, mem)
      case AllocateStream(stream, m) => AllocateStream(stream, m, pc, mem)
      case RecomputeStandings => RecomputeStandings(pc, mem)
      case GoLive(m, stream, _) => GoLive(m, stream, pc, mem)
      case ProjectMedals(country, n) => ProjectMedals(country, GetOr(n, 200000), pc, mem)
      case RenderHighlight(h, corrupt) => RenderHighlight(h, corrupt, pc, mem)
  }

  // ---- One request running alone -------------------------------------------

  /** A request's program: what one step does to a configuration. */
  type Program = Config -> Config

  function ProgramOf(ref: Roster, op: Op): Program { c => Micro(ref, op, c) }

  function Steps(program: Program, n: nat, c: Config): Config {
    if n == 0 then c else Steps(program, n - 1, program(c))
  }

  ghost predicate Halts(program: Program) {
    forall c: Config :: Terminal(c.pc) ==> program(c) == c
  }

  lemma {:induction false} StepsSplit(program: Program, m: nat, n: nat, c: Config)
    ensures Steps(program, m + n, c) == Steps(program, n, Steps(program, m, c))
  {
    if m > 0 { StepsSplit(program, m - 1, n, program(c)); }
  }

  lemma {:induction false} TerminalStays(program: Program, n: nat, c: Config)
    requires Halts(program) && Terminal(c.pc)
    ensures Steps(program, n, c) == c
  {
    if n > 0 { TerminalStays(program, n - 1, c); }
  }

  ghost predicate Reaches(program: Program, c: Config, end: Config) {
    exists n: nat :: Steps(program, n, c) == end
  }

  /** Run alone, a request can end in one way only. */
  lemma {:induction false} EndIsUnique(program: Program, c: Config, d: Config, e: Config)
    requires Halts(program)
    requires Reaches(program, c, d) && Reaches(program, c, e) && Terminal(d.pc) && Terminal(e.pc)
    ensures d == e
  {
    var m: nat :| Steps(program, m, c) == d;
    var n: nat :| Steps(program, n, c) == e;
    if m < n {
      StepsSplit(program, m, n - m, c);
      TerminalStays(program, n - m, d);
    } else {
      StepsSplit(program, n, m - n, c);
      TerminalStays(program, m - n, e);
    }
  }

  lemma Here(program: Program, c: Config)
    ensures Reaches(program, c, c)
  {
    assert Steps(program, 0, c) == c;
  }

  lemma Hop(program: Program, c: Config, next: Config, end: Config)
    requires program(c) == next && Reaches(program, next, end)
    ensures Reaches(program, c, end)
  {
    var n: nat :| Steps(program, n, next) == end;
    assert Steps(program, n + 1, c) == end;
  }

  lemma TwoHops(program: Program, c: Config, next: Config, after: Config, end: Config)
    requires program(c) == next && program(next) == after && Reaches(program, after, end)
    ensures Reaches(program, c, end)
  {
    Hop(program, next, after, end);
    Hop(program, c, next, end);
  }

  /** Where a request ends when its effect is e, its log entries are `entries` and it starts from mem. */
  function EndWith(e: Effect, entries: seq<LogEntry>, mem: Memory): Config {
    At(if e.reply.None? then Die else Return(e.reply.value),
       Memory(State(e.buckets, mem.state.log + entries), mem.actor))
  }

  predicate Live(pc: Pc) { !Terminal(pc) && !pc.Enter? }

  /** Between its `_CTX` write and its end, what the program does in one step. */
  ghost predicate Follows(p: Program, body: (Pc, Memory) -> Config) {
    forall pc, mem {:trigger p(At(pc, mem))} :: Live(pc) ==> p(At(pc, mem)) == body(pc, mem)
  }

  lemma PutVenueTwice(mem: Memory, v: string, first: Venue, second: Venue)
    ensures PutVenue(PutVenue(mem, v, first), v, second) == PutVenue(mem, v, second)
  {
    var venues := mem.state.buckets.venues;
    assert venues[v := first][v := second] == venues[v := second];
  }

  lemma TakeVenueRuns(ref: Roster, v: string, m: string, p: Program, mem: Memory, end: Config)
    requires Follows(p, (pc: Pc, mem: Memory) => BookVenueSlot(ref, v, m, pc, mem))
    requires end == At(Return(Reply(true, BookedFor(v, m))),
                       Logging(PutVenue(mem, v, Venue(Occupied, Some(m))), VenueBooked(v, m)))
    ensures Reaches(p, At(Mark, mem), end)
  {
    var marked := VenueAt(mem, v).(status := Occupied);
    var mem3, mem4 := PutVenue(mem, v, marked), PutVenue(mem, v, Venue(Occupied, Some(m)));
    PutVenueTwice(mem, v, marked, Venue(Occupied, Some(m)));
    Here(p, end);
    Hop(p, At(Record(0, true), mem4), end, end);
    Hop(p, At(Hold, mem3), At(Record(0, true), mem4), end);
    Hop(p, At(Mark, mem), At(Hold, mem3), end);
  }

  lemma BookVenueRuns(ref: Roster, v: string, m: string, p: Program, mem: Memory)
    requires Follows(p, (pc: Pc, mem: Memory) => BookVenueSlot(ref, v, m, pc, mem))
    ensures var e := Semantics.BookVenueSlot(ref, mem.state.buckets, v, m);
            Reaches(p, At(Begin, mem), EndWith(e, e.entries, mem))
  {
    var b := mem.state.buckets;
    var e := Semantics.BookVenueSlot(ref, b, v, m);
    var end := EndWith(e, e.entries, mem);
    var was := Semantics.VenueOf(b, v);
    var mem2 := PutVenue(mem, v, was);
    Here(p, end);
    if v !in ref.venues {
      Hop(p, At(Begin, mem), end, end);
    } else {
      if was.status != Free {
        assert mem2 == mem by { assert b.venues[v := was] == b.venues; }
        Hop(p, At(Deny, mem2), end, end);
        Hop(p, At(Examine, mem2), At(Deny, mem2), end);
      } else {
        PutVenueTwice(mem, v, was, Venue(Occupied, Some(m)));
        TakeVenueRuns(ref, v, m, p, mem2, end);
        Hop(p, At(Examine, mem2), At(Mark, mem2), end);
      }
      Hop(p, At(Begin, mem), At(Examine, mem2), end);
    }
  }

  lemma FreeVenueRuns(v: string, p: Program, mem: Memory, end: Config)
    requires Follows(p, (pc: Pc, mem: Memory) => ReleaseVenueSlot(v, pc, mem))
    requires end == At(Return(Reply(true, ReleasedVenue(v))),
                       Logging(PutVenue(mem, v, Venue(Free, None)), VenueReleased(v)))
    ensures Reaches(p, At(Mark, mem), end)
  {
    var marked := VenueAt(mem, v).(status := Free);
    var mem3, mem4 := PutVenue(mem, v, marked), PutVenue(mem, v, Venue(Free, None));
    PutVenueTwice(mem, v, marked, Venue(Free, None));
    Here(p, end);
    Hop(p, At(Record(0, true), mem4), end, end);
    Hop(p, At(Hold, mem3), At(Record(0, true), mem4), end);
    Hop(p, At(Mark, mem), At(Hold, mem3), end);
  }

  lemma ReleaseVenueRuns(v: string, p: Program, mem: Memory)
    requires Follows(p, (pc: Pc, mem: Memory) => ReleaseVenueSlot(v, pc, mem))
    ensures var e := Semantics.ReleaseVenueSlot(mem.state.buckets, v);
            Reaches(p, At(Begin, mem), EndWith(e, e.entries, mem))
  {
    var b := mem.state.buckets;
    var e := Semantics.ReleaseVenueSlot(b, v);
    var end := EndWith(e, e.entries, mem);
    Here(p, end);
    if v !in b.venues {
      Hop(p, At(Deny, mem), end, end);
      Hop(p, At(Begin, mem), At(Deny, mem), end);
    } else {
      if b.venues[v].status == Free {
        Hop(p, At(Deny, mem), end, end);
        Hop(p, At(Examine, mem), At(Deny, mem), end);
      } else {
        FreeVenueRuns(v, p, mem, end);
        Hop(p, At(Examine, mem), At(Mark, mem), end);
      }
      Hop(p, At(Begin, mem), At(Examine, mem), end);
    }
  }

  lemma PutMatchTwice(mem: Memory, m: string, first: Match, second: Match)
    ensures PutMatch(PutMatch(mem, m, first), m, second) == PutMatch(mem, m, second)
  {
    var matches := mem.state.buckets.matches;
    assert matches[m := first][m := second] == matches[m := second];
  }

  lemma SellSeatRuns(ref: Roster, m: string, seat: string, user: string, p: Program, mem: Memory, end: Config)
    requires Follows(p, (pc: Pc, mem: Memory) => BookTicket(ref, m, seat, user, pc, mem))
    requires mem.actor == user
    requires var entry := MatchAt(mem, m);
             end == At(Return(Reply(true, SoldTo(seat, user))),
                       Logging(PutMatch(mem, m, entry.(seats := entry.seats[seat := user])),
                               TicketBooked(m, seat, user)))
    ensures Reaches(p, At(Window, mem), end)
  {
    var entry := MatchAt(mem, m);
    var mem3 := PutMatch(mem, m, entry.(seats := entry.seats[seat := user]));
    Here(p, end);
    Hop(p, At(Record(0, true), mem3), end, end);
    Hop(p, At(Sell(user), mem), At(Record(0, true), mem3), end);
    Hop(p, At(Window, mem), At(Sell(user), mem), end);
  }

  /** Alone, the actor read in the window is still this request's own user. */
  lemma BookTicketRuns(ref: Roster, m: string, seat: string, user: string, p: Program, mem: Memory)
    requires Follows(p, (pc: Pc, mem: Memory) => BookTicket(ref, m, seat, user, pc, mem))
    requires user in ref.users ==> mem.actor == user
    ensures var e := Semantics.BookTicket(ref, mem.state.buckets, m, seat, user);
            Reaches(p, At(Begin, mem), EndWith(e, Monolith.TicketEntries(ref, mem.state.buckets, m, seat, user), mem))
  {
    var b := mem.state.buckets;
    var e := Semantics.BookTicket(ref, b, m, seat, user);
    var end := EndWith(e, Monolith.TicketEntries(ref, b, m, seat, user), mem);
    var was := Semantics.MatchOf(b, m);
    var mem2 := PutMatch(mem, m, was);
    Here(p, end);
    if user !in ref.users {
      Hop(p, At(Begin, mem), end, end);
    } else {
      if seat in was.seats {
        Hop(p, At(Deny, mem2), end, end);
        Hop(p, At(Examine, mem2), At(Deny, mem2), end);
      } else {
        PutMatchTwice(mem, m, was, was.(seats := was.seats[seat := user]));
        SellSeatRuns(ref, m, seat, user, p, mem2, end);
        Hop(p, At(Examine, mem2), At(Window, mem2), end);
      }
      Hop(p, At(Begin, mem), At(Examine, mem2), end);
    }
  }

  lemma AssignVolunteerRuns(ref: Roster, volunteer: string, venue: string, p: Program, mem: Memory)
    requires Follows(p, (pc: Pc, mem: Memory) => AssignVolunteer(ref, volunteer, venue, pc, mem))
    ensures var e := Semantics.AssignVolunteer(ref, mem.state.buckets, volunteer, venue);
            Reaches(p, At(Begin, mem), EndWith(e, e.entries, mem))
  {
    var e := Semantics.AssignVolunteer(ref, mem.state.buckets, volunteer, venue);
    var end := EndWith(e, e.entries, mem);
    Here(p, end);
    if volunteer !in ref.volunteers {
      Hop(p, At(Begin, mem), end, end);
    } else if venue !in ref.venues {
      Hop(p, At(Begin, mem), end, end);
    } else {
      Hop(p, At(Record(0, true), With(mem, e.buckets)), end, end);
      Hop(p, At(Begin, mem), At(Record(0, true), With(mem, e.buckets)), end);
    }
  }

  lemma PutShuttleTwice(mem: Memory, id: string, first: Shuttle, second: Shuttle)
    ensures PutShuttle(PutShuttle(mem, id, first), id, second) == PutShuttle(mem, id, second)
  {
    var shuttles := mem.state.buckets.shuttles;
    assert shuttles[id := first][id := second] == shuttles[id := second];
  }

  /** The shuttle made if need be, and its route written. */
  lemma RouteRuns(id: string, route: string, boarding: int, capacity: int, p: Program, mem: Memory, shuttle: Shuttle,
                  end: Config)
    requires Follows(p, (pc: Pc, mem: Memory) => DispatchShuttle(id, route, boarding, capacity, pc, mem))
    requires shuttle == if id in mem.state.buckets.shuttles then ShuttleAt(mem, id).(route := route)
                        else Shuttle(route, 0, capacity)
    requires Reaches(p, At(Examine, PutShuttle(mem, id, shuttle)), end)
    ensures Reaches(p, At(Begin, mem), end)
  {
    var routed := PutShuttle(mem, id, shuttle);
    if id in mem.state.buckets.shuttles {
      TwoHops(p, At(Begin, mem), At(Mark, mem), At(Examine, routed), end);
    } else {
      PutShuttleTwice(mem, id, shuttle, shuttle);
      TwoHops(p, At(Begin, mem), At(Mark, routed), At(Examine, routed), end);
    }
  }

  lemma DispatchShuttleRuns(id: string, route: string, boarding: int, capacity: int, p: Program, mem: Memory)
    requires Follows(p, (pc: Pc, mem: Memory) => DispatchShuttle(id, route, boarding, capacity, pc, mem))
    ensures var e := Semantics.DispatchShuttle(mem.state.buckets, id, route, boarding, capacity);
            Reaches(p, At(Begin, mem), EndWith(e, e.entries, mem))
  {
    var b := mem.state.buckets;
    var e := Semantics.DispatchShuttle(b, id, route, boarding, capacity);
    var end := EndWith(e, e.entries, mem);
    var shuttle := if id in b.shuttles then b.shuttles[id].(route := route) else Shuttle(route, 0, capacity);
    var routed := PutShuttle(mem, id, shuttle);
    Here(p, end);
    if shuttle.passengers + boarding > shuttle.capacity {
      Hop(p, At(Deny, routed), end, end);
      Hop(p, At(Examine, routed), At(Deny, routed), end);
    } else {
      BoardingRuns(id, route, boarding, capacity, p, mem, shuttle, end);
      Hop(p, At(Examine, routed), At(ReadLoad, routed), end);
    }
    RouteRuns(id, route, boarding, capacity, p, mem, shuttle, end);
  }

  lemma LoadReported(id: string, route: string, boarding: int, capacity: int, p: Program, mem: Memory, end: Config)
    requires Follows(p, (pc: Pc, mem: Memory) => DispatchShuttle(id, route, boarding, capacity, pc, mem))
    requires end == At(Return(Reply(true, OnRoute(id, route, ShuttleAt(mem, id).passengers))), mem)
    ensures Reaches(p, At(ReadBack(true), mem), end)
  {
    Here(p, end);
    Hop(p, At(ReadBack(true), mem), end, end);
  }

  lemma BoardedRuns(id: string, route: string, boarding: int, capacity: int, p: Program, mem: Memory, load: int,
                    end: Config)
    requires Follows(p, (pc: Pc, mem: Memory) => DispatchShuttle(id, route, boarding, capacity, pc, mem))
    requires id in mem.state.buckets.shuttles && ShuttleAt(mem, id).passengers == load
    requires end == At(Return(Reply(true, OnRoute(id, route, load))), Logging(mem, ShuttleDispatched(id, route, load)))
    ensures Reaches(p, At(LogLoad, mem), end)
  {
    LoadReported(id, route, boarding, capacity, p, end.mem, end);
    Hop(p, At(Record(load, true), mem), At(ReadBack(true), end.mem), end);
    Hop(p, At(LogLoad, mem), At(Record(load, true), mem), end);
  }

  lemma BoardingRuns(id: string, route: string, boarding: int, capacity: int, p: Program, mem: Memory,
                     shuttle: Shuttle, end: Config)
    requires Follows(p, (pc: Pc, mem: Memory) => DispatchShuttle(id, route, boarding, capacity, pc, mem))
    requires var load := shuttle.passengers + boarding;
             end == At(Return(Reply(true, OnRoute(id, route, load))),
                       Logging(PutShuttle(mem, id, shuttle.(passengers := load)), ShuttleDispatched(id, route, load)))
    ensures Reaches(p, At(ReadLoad, PutShuttle(mem, id, shuttle)), end)
  {
    var load := shuttle.passengers + boarding;
    var mem3 := PutShuttle(mem, id, shuttle);
    var mem4 := PutShuttle(mem, id, shuttle.(passengers := load));
    PutShuttleTwice(mem, id, shuttle, shuttle.(passengers := load));
    BoardedRuns(id, route, boarding, capacity, p, mem4, load, end);
    Hop(p, At(Board(shuttle.passengers), mem3), At(LogLoad, mem4), end);
    Hop(p, At(ReadLoad, mem3), At(Board(shuttle.passengers), mem3), end);
  }

  lemma ReserveTableRuns(ref: Roster, athlete: string, restaurant: string, party: int, p: Program, mem: Memory)
    requires Follows(p, (pc: Pc, mem: Memory) => ReserveRestaurantTable(ref, athlete, restaurant, party, pc, mem))
    ensures var e := Semantics.ReserveRestaurantTable(ref, mem.state.buckets, athlete, restaurant, party);
            Reaches(p, At(Begin, mem), EndWith(e, e.entries, mem))
  {
    var e := Semantics.ReserveRestaurantTable(ref, mem.state.buckets, athlete, restaurant, party);
    var end := EndWith(e, e.entries, mem);
    Here(p, end);
    if athlete !in ref.athletes {
      Hop(p, At(Begin, mem), end, end);
    } else if party < 1 || party > 8 {
      Hop(p, At(Begin, mem), end, end);
    } else {
      Hop(p, At(Record(0, true), With(mem, e.buckets)), end, end);
      Hop(p, At(Begin, mem), At(Record(0, true), With(mem, e.buckets)), end);
    }
  }

  lemma PutSubscribersTwice(mem: Memory, topic: string, first: seq<string>, second: seq<string>)
    ensures PutSubscribers(PutSubscribers(mem, topic, first), topic, second) == PutSubscribers(mem, topic, second)
  {
    var subscriptions := mem.state.buckets.subscriptions;
    assert subscriptions[topic := first][topic := second] == subscriptions[topic := second];
  }

  lemma AppendRuns(ref: Roster, user: string, topic: string, p: Program, mem: Memory, end: Config)
    requires Follows(p, (pc: Pc, mem: Memory) => SubscribeToUpdates(ref, user, topic, pc, mem))
    requires end == At(Return(Reply(true, SubscribedTo(user, topic))),
                       Logging(PutSubscribers(mem, topic, SubscribersAt(mem, topic) + [user]), Subscribed(user, topic)))
    ensures Reaches(p, At(Append, mem), end)
  {
    var mem3 := PutSubscribers(mem, topic, SubscribersAt(mem, topic) + [user]);
    Here(p, end);
    Hop(p, At(Record(0, true), mem3), end, end);
    Hop(p, At(Append, mem), At(Record(0, true), mem3), end);
  }

  lemma SubscribeRuns(ref: Roster, user: string, topic: string, p: Program, mem: Memory)
    requires Follows(p, (pc: Pc, mem: Memory) => SubscribeToUpdates(ref, user, topic, pc, mem))
    ensures var e := Semantics.SubscribeToUpdates(ref, mem.state.buckets, user, topic);
            Reaches(p, At(Begin, mem), EndWith(e, e.entries, mem))
  {
    var b := mem.state.buckets;
    var e := Semantics.SubscribeToUpdates(ref, b, user, topic);
    var end := EndWith(e, e.entries, mem);
    var subs := Semantics.SubscribersOf(b, topic);
    var mem2 := PutSubscribers(mem, topic, subs);
    Here(p, end);
    if user !in ref.users {
      Hop(p, At(Begin, mem), end, end);
    } else {
      if user in subs {
        Hop(p, At(Record(0, true), mem2), end, end);
        Hop(p, At(Examine, mem2), At(Record(0, true), mem2), end);
      } else {
        PutSubscribersTwice(mem, topic, subs, subs + [user]);
        AppendRuns(ref, user, topic, p, mem2, end);
        Hop(p, At(Examine, mem2), At(Append, mem2), end);
      }
      Hop(p, At(Begin, mem), At(Examine, mem2), end);
    }
  }

  lemma AllocateStreamRuns(stream: string, m: string, p: Program, mem: Memory)
    requires Follows(p, (pc: Pc, mem: Memory) => AllocateStream(stream, m, pc, mem))
    ensures var e := Semantics.AllocateStream(mem.state.buckets, stream, m);
            Reaches(p, At(Begin, mem), EndWith(e, e.entries, mem))
  {
    var e := Semantics.AllocateStream(mem.state.buckets, stream, m);
    var end := EndWith(e, e.entries, mem);
    Here(p, end);
    Hop(p, At(Record(0, true), With(mem, e.buckets)), end, end);
    Hop(p, At(Begin, mem), At(Record(0, true), With(mem, e.buckets)), end);
  }

  lemma UpdateScoreRuns(ref: Roster, c: string, medal: string, p: Program, mem: Memory)
    requires Follows(p, (pc: Pc, mem: Memory) => UpdateCountryScore(ref, c, medal, pc, mem))
    ensures var e := Semantics.UpdateCountryScore(ref, mem.state.buckets, c, medal);
            Reaches(p, At(Begin, mem), EndWith(e, e.entries, mem))
  {
    var b := mem.state.buckets;
    var e := Semantics.UpdateCountryScore(ref, b, c, medal);
    var end := EndWith(e, e.entries, mem);
    Here(p, end);
    if c !in ref.countries {
      Hop(p, At(Begin, mem), end, end);
    } else if !Semantics.IsMedal(medal) {
      Hop(p, At(Begin, mem), end, end);
    } else {
      var was := Semantics.ScoreOf(b, c);
      AwardRuns(ref, c, medal, p, mem, was, end);
      Hop(p, At(Begin, mem), At(ReadMedal, PutScore(mem, c, was)), end);
    }
  }

  lemma PutScoreTwice(mem: Memory, c: string, first: Score, second: Score)
    ensures PutScore(PutScore(mem, c, first), c, second) == PutScore(mem, c, second)
  {
    var t := mem.state.buckets.countryScores;
    assert t.entries[c := first][c := second] == t.entries[c := second];
  }

  lemma ScoreRecorded(ref: Roster, c: string, medal: string, p: Program, mem: Memory, end: Config)
    requires Follows(p, (pc: Pc, mem: Memory) => UpdateCountryScore(ref, c, medal, pc, mem))
    requires end == At(Return(Scored(true, PlusOne(c, medal), ScoreAt(mem, c).points)),
                       Logging(mem, ScoreUpdated(c, medal)))
    ensures Reaches(p, At(Record(0, true), mem), end)
  {
    Here(p, end);
    Hop(p, At(ReadBack(true), end.mem), end, end);
    Hop(p, At(Record(0, true), mem), At(ReadBack(true), end.mem), end);
  }

  /** Country c's entry with so many more points. */
  function Gaining(mem: Memory, c: string, gain: int): Memory {
    PutScore(mem, c, ScoreAt(mem, c).(points := ScoreAt(mem, c).points + gain))
  }

  lemma PointsRead(ref: Roster, c: string, medal: string, p: Program, mem: Memory)
    requires Follows(p, (pc: Pc, mem: Memory) => UpdateCountryScore(ref, c, medal, pc, mem))
    ensures p(At(ReadPoints, mem)) == At(WritePoints(ScoreAt(mem, c).points), mem)
  {
  }

  lemma PointsWritten(ref: Roster, c: string, medal: string, p: Program, mem: Memory)
    requires Follows(p, (pc: Pc, mem: Memory) => UpdateCountryScore(ref, c, medal, pc, mem))
    requires Semantics.IsMedal(medal)
    ensures p(At(WritePoints(ScoreAt(mem, c).points), mem)) ==
            At(Record(0, true), Gaining(mem, c, Semantics.MedalPoints(medal)))
  {
  }

  lemma PointsRun(ref: Roster, c: string, medal: string, p: Program, mem: Memory, end: Config)
    requires Follows(p, (pc: Pc, mem: Memory) => UpdateCountryScore(ref, c, medal, pc, mem))
    requires Semantics.IsMedal(medal)
    requires var mem4 := Gaining(mem, c, Semantics.MedalPoints(medal));
             end == At(Return(Scored(true, PlusOne(c, medal), ScoreAt(mem4, c).points)),
                       Logging(mem4, ScoreUpdated(c, medal)))
    ensures Reaches(p, At(ReadPoints, mem), end)
  {
    var gain := Semantics.MedalPoints(medal);
    PointsRead(ref, c, medal, p, mem);
    PointsWritten(ref, c, medal, p, mem);
    ScoreRecorded(ref, c, medal, p, Gaining(mem, c, gain), end);
    TwoHops(p, At(ReadPoints, mem), At(WritePoints(ScoreAt(mem, c).points), mem),
            At(Record(0, true), Gaining(mem, c, gain)), end);
  }

  /** Country c's entry with one more medal counted, its points not yet. */
  function Counting(mem: Memory, c: string, medal: string): Memory {
    PutScore(mem, c, SetCount(ScoreAt(mem, c), medal, Count(ScoreAt(mem, c), medal) + 1))
  }

  lemma MedalRead(ref: Roster, c: string, medal: string, p: Program, mem: Memory)
    requires Follows(p, (pc: Pc, mem: Memory) => UpdateCountryScore(ref, c, medal, pc, mem))
    ensures p(At(ReadMedal, mem)) == At(WriteMedal(Count(ScoreAt(mem, c), medal)), mem)
  {
  }

  lemma MedalWritten(ref: Roster, c: string, medal: string, p: Program, mem: Memory)
    requires Follows(p, (pc: Pc, mem: Memory) => UpdateCountryScore(ref, c, medal, pc, mem))
    ensures p(At(WriteMedal(Count(ScoreAt(mem, c), medal)), mem)) == At(ReadPoints, Counting(mem, c, medal))
  {
  }

  /** Counting the medal and then adding its points is the award. */
  lemma AwardIsCounted(was: Score, medal: string)
    requires Semantics.IsMedal(medal)
    ensures var counted := SetCount(was, medal, Count(was, medal) + 1);
            counted.(points := counted.points + Semantics.MedalPoints(medal)) == Semantics.Award(was, medal)
  {
  }

  lemma GainMemory(mem: Memory, c: string, counted: Score, gain: int)
    ensures Gaining(PutScore(mem, c, counted), c, gain) == PutScore(mem, c, counted.(points := counted.points + gain))
  {
    PutScoreTwice(mem, c, counted, counted.(points := counted.points + gain));
  }

  lemma AwardMemory(mem: Memory, c: string, was: Score, medal: string)
    requires Semantics.IsMedal(medal)
    ensures Gaining(Counting(PutScore(mem, c, was), c, medal), c, Semantics.MedalPoints(medal)) ==
            PutScore(mem, c, Semantics.Award(was, medal))
  {
    CountMemory(mem, c, was, medal);
    GainMemory(mem, c, SetCount(was, medal, Count(was, medal) + 1), Semantics.MedalPoints(medal));
    AwardIsCounted(was, medal);
  }

  lemma CountMemory(mem: Memory, c: string, was: Score, medal: string)
    ensures Counting(PutScore(mem, c, was), c, medal) == PutScore(mem, c, SetCount(was, medal, Count(was, medal) + 1))
  {
    PutScoreTwice(mem, c, was, SetCount(was, medal, Count(was, medal) + 1));
  }

  lemma AwardRuns(ref: Roster, c: string, medal: string, p: Program, mem: Memory, was: Score, end: Config)
    requires Follows(p, (pc: Pc, mem: Memory) => UpdateCountryScore(ref, c, medal, pc, mem))
    requires Semantics.IsMedal(medal)
    requires var score := Semantics.Award(was, medal);
             end == At(Return(Scored(true, PlusOne(c, medal), score.points)),
                       Logging(PutScore(mem, c, score), ScoreUpdated(c, medal)))
    ensures Reaches(p, At(ReadMedal, PutScore(mem, c, was)), end)
  {
    var mem2 := PutScore(mem, c, was);
    var mem3 := Counting(mem2, c, medal);
    AwardMemory(mem, c, was, medal);
    PointsRun(ref, c, medal, p, mem3, end);
    MedalRead(ref, c, medal, p, mem2);
    MedalWritten(ref, c, medal, p, mem2);
    TwoHops(p, At(ReadMedal, mem2), At(WriteMedal(Count(ScoreAt(mem2, c), medal)), mem2), At(ReadPoints, mem3), end);
  }

  function LoggingAll(mem: Memory, entries: seq<LogEntry>): Memory {
    mem.(state := mem.state.(log := mem.state.log + entries))
  }

  /** A program that delivers `status` for match m and goes on at `live` or, without a subscriber list, at `absent`. */
  ghost predicate Delivers(p: Program, m: string, status: string, live: Pc, absent: Pc) {
    && (forall k, l, mem :: p(At(Deliver(k, l), mem)) == NextDelivery(m, k, l, if l then live else absent, mem))
    && (forall pc: Pc, mem :: Announcing(pc) ==> p(At(pc, mem)) == Announce(m, status, pc, mem))
  }

  /** The log once subscribers k, k+1, ... of match m have had their deliveries. */
  function Delivered(mem: Memory, m: string, status: string, k: nat): Memory
    requires k <= |SubscribersAt(mem, m)|
  {
    LoggingAll(mem, Semantics.Deliveries(m, SubscribersAt(mem, m), status)[k..])
  }

  lemma OneDelivery(mem: Memory, m: string, status: string, k: nat)
    requires k <= |SubscribersAt(mem, m)|
    ensures k == |SubscribersAt(mem, m)| ==> Delivered(mem, m, status, k) == mem
    ensures k < |SubscribersAt(mem, m)| ==>
              var mem' := Logging(mem, Delivery(m, SubscribersAt(mem, m)[k], status));
              Delivered(mem, m, status, k) == Delivered(mem', m, status, k + 1)
  {
    var all := Semantics.Deliveries(m, SubscribersAt(mem, m), status);
    if k < |all| {
      assert all[k..] == [all[k]] + all[k + 1..];
      assert (mem.state.log + [all[k]]) + all[k + 1..] == mem.state.log + all[k..];
    }
  }

  /** From the k-th delivery on: the rest of the subscribers get theirs, then the loop is left. */
  lemma {:induction false} DeliveryLoop(m: string, status: string, live: Pc, absent: Pc, p: Program, k: nat,
                                        mem: Memory, end: Config)
    requires Delivers(p, m, status, live, absent)
    requires k <= |SubscribersAt(mem, m)|
    requires var l := m in mem.state.buckets.subscriptions;
             Reaches(p, At(if l then live else absent, Delivered(mem, m, status, k)), end)
    ensures Reaches(p, At(Deliver(k, m in mem.state.buckets.subscriptions), mem), end)
    decreases |SubscribersAt(mem, m)| - k
  {
    var l := m in mem.state.buckets.subscriptions;
    OneDelivery(mem, m, status, k);
    if k == |SubscribersAt(mem, m)| {
      Hop(p, At(Deliver(k, l), mem), At(if l then live else absent, mem), end);
    } else {
      var user := SubscribersAt(mem, m)[k];
      var mem' := Logging(mem, Delivery(m, user, status));
      DeliveryLoop(m, status, live, absent, p, k + 1, mem', end);
      Hop(p, At(Send(k, user), mem), At(Deliver(k + 1, true), mem'), end);
      Hop(p, At(Deliver(k, l), mem), At(Send(k, user), mem), end);
    }
  }

  /** The memory once match m has its status and every subscriber their delivery. */
  function Announced(mem: Memory, m: string, status: string): Memory {
    var b := mem.state.buckets;
    LoggingAll(With(mem, Semantics.SetStatus(b, m, status)),
               Semantics.Deliveries(m, Semantics.SubscribersOf(b, m), status))
  }

  /** The announcement both a push and a go-live begin with. */
  lemma Announcement(m: string, status: string, live: Pc, absent: Pc, p: Program, mem: Memory, end: Config)
    requires Delivers(p, m, status, live, absent)
    requires var l := m in mem.state.buckets.subscriptions;
             Reaches(p, At(if l then live else absent, Announced(mem, m, status)), end)
    ensures Reaches(p, At(Begin, mem), end)
  {
    var b := mem.state.buckets;
    var entry := Semantics.MatchOf(b, m);
    var mem2 := PutMatch(mem, m, entry);
    var mem3 := With(mem, Semantics.SetStatus(b, m, status));
    PutMatchTwice(mem, m, entry, entry.(status := Some(status)));
    SubscribersFound(m, status, live, absent, p, mem3, end);
    Hop(p, At(Mark, mem2), At(FindSubscribers, mem3), end);
    Hop(p, At(Begin, mem), At(Mark, mem2), end);
  }

  lemma SubscribersFound(m: string, status: string, live: Pc, absent: Pc, p: Program, mem: Memory, end: Config)
    requires Delivers(p, m, status, live, absent)
    requires var l := m in mem.state.buckets.subscriptions;
             Reaches(p, At(if l then live else absent,
                           LoggingAll(mem, Semantics.Deliveries(m, SubscribersAt(mem, m), status))), end)
    ensures Reaches(p, At(FindSubscribers, mem), end)
  {
    var all := Semantics.Deliveries(m, SubscribersAt(mem, m), status);
    assert all[0..] == all;
    DeliveryLoop(m, status, live, absent, p, 0, mem, end);
    Hop(p, At(FindSubscribers, mem), At(Deliver(0, m in mem.state.buckets.subscriptions), mem), end);
  }

  lemma PushRuns(m: string, eventType: string, details: string, p: Program, mem: Memory)
    requires Follows(p, (pc: Pc, mem: Memory) => PushLiveEvent(m, eventType, details, pc, mem))
    ensures var e := Semantics.PushLiveEvent(mem.state.buckets, m, eventType, details);
            Reaches(p, At(Begin, mem), EndWith(e, e.entries, mem))
  {
    var b := mem.state.buckets;
    var e := Semantics.PushLiveEvent(b, m, eventType, details);
    var end := EndWith(e, e.entries, mem);
    var all := Semantics.Deliveries(m, Semantics.SubscribersOf(b, m), eventType);
    assert (mem.state.log + all) + [EventPushed(m, eventType, details)] == mem.state.log + e.entries;
    PushedRuns(m, eventType, details, p, Announced(mem, m, eventType), m in b.subscriptions, end);
    PushDelivers(m, eventType, details, p);
    Announcement(m, eventType, Record(0, true), Record(0, false), p, mem, end);
  }

  lemma PushDelivers(m: string, eventType: string, details: string, p: Program)
    requires Follows(p, (pc: Pc, mem: Memory) => PushLiveEvent(m, eventType, details, pc, mem))
    ensures Delivers(p, m, eventType, Record(0, true), Record(0, false))
  {
  }

  lemma PushedRuns(m: string, eventType: string, details: string, p: Program, mem: Memory, live: bool, end: Config)
    requires Follows(p, (pc: Pc, mem: Memory) => PushLiveEvent(m, eventType, details, pc, mem))
    requires end == At(Return(Pushed(true, PushedFor(eventType, m), if live then |SubscribersAt(mem, m)| else 0)),
                       Logging(mem, EventPushed(m, eventType, details)))
    ensures Reaches(p, At(Record(0, live), mem), end)
  {
    Here(p, end);
    Hop(p, At(ReadBack(live), end.mem), end, end);
    Hop(p, At(Record(0, live), mem), At(ReadBack(live), end.mem), end);
  }

  ghost predicate Reranks(p: Program) {
    forall pc: Pc, mem :: Scanning(pc) ==> p(At(pc, mem)) == Rerank(pc, mem)
  }

  lemma RowsSoFar(t: ScoreTable, k: nat)
    requires k <= |t.order|
    ensures |Standings.RowsOf(t)| == |t.order|
    ensures k == 0 ==> Standings.RowsOf(t)[..k] == []
    ensures k == |t.order| ==> Standings.RowsOf(t)[..k] == Standings.RowsOf(t)
    ensures k < |t.order| ==>
              Standings.RowsOf(t)[..k + 1] == Standings.RowsOf(t)[..k] + [Standings.RowOf(t, t.order[k])]
  {
  }

  lemma ScanStep(p: Program, k: nat, mem: Memory, end: Config)
    requires Reranks(p)
    requires k < |mem.state.buckets.countryScores.order| && Scanned(p, k + 1, mem, end)
    ensures Scanned(p, k, mem, end)
  {
    var t := mem.state.buckets.countryScores;
    var rows, n := Standings.RowsOf(t), |t.order|;
    RowsSoFar(t, k);
    CopyRuns(p, k, rows[..k], mem, end);
    ScanHop(p, k, n, rows[..k], mem, end);
  }

  lemma ScanHop(p: Program, k: nat, n: nat, rows: seq<Row>, mem: Memory, end: Config)
    requires Reranks(p) && k < n == |mem.state.buckets.countryScores.order|
    requires var c := mem.state.buckets.countryScores.order[k];
             Reaches(p, At(Copy(k + 1, n, rows, Row(c, 0, 0, 0, 0, 0), 0), mem), end)
    ensures Reaches(p, At(Scan(k, n, rows), mem), end)
  {
    var c := mem.state.buckets.countryScores.order[k];
    Hop(p, At(Scan(k, n, rows), mem), At(Copy(k + 1, n, rows, Row(c, 0, 0, 0, 0, 0), 0), mem), end);
  }

  /** Copying an entry's four numbers, alone, makes its row. */
  lemma CopyRuns(p: Program, k: nat, rows: seq<Row>, mem: Memory, end: Config)
    requires Reranks(p) && k < |mem.state.buckets.countryScores.order|
    requires var t := mem.state.buckets.countryScores;
             Reaches(p, At(Scan(k + 1, |t.order|, rows + [Standings.RowOf(t, t.order[k])]), mem), end)
    ensures var t := mem.state.buckets.countryScores;
            Reaches(p, At(Copy(k + 1, |t.order|, rows, Row(t.order[k], 0, 0, 0, 0, 0), 0), mem), end)
  {
    var t := mem.state.buckets.countryScores;
    var c, n := t.order[k], |t.order|;
    var score := ScoreAt(mem, c);
    LastCopies(p, k + 1, n, rows, c, mem, end);
    Hop(p, At(Copy(k + 1, n, rows, Row(c, score.gold, 0, 0, 0, 0), 1), mem),
        At(Copy(k + 1, n, rows, Row(c, score.gold, score.silver, 0, 0, 0), 2), mem), end);
    Hop(p, At(Copy(k + 1, n, rows, Row(c, 0, 0, 0, 0, 0), 0), mem),
        At(Copy(k + 1, n, rows, Row(c, score.gold, 0, 0, 0, 0), 1), mem), end);
  }

  lemma LastCopies(p: Program, k: nat, n: nat, rows: seq<Row>, c: string, mem: Memory, end: Config)
    requires Reranks(p) && c in mem.state.buckets.countryScores.entries
    requires Reaches(p, At(Scan(k, n, rows + [Standings.RowOf(mem.state.buckets.countryScores, c)]), mem), end)
    ensures var score := ScoreAt(mem, c);
            Reaches(p, At(Copy(k, n, rows, Row(c, score.gold, score.silver, 0, 0, 0), 2), mem), end)
  {
    var score := ScoreAt(mem, c);
    Hop(p, At(Copy(k, n, rows, Row(c, score.gold, score.silver, score.bronze, 0, 0), 3), mem),
        At(Scan(k, n, rows + [Standings.RowOf(mem.state.buckets.countryScores, c)]), mem), end);
    Hop(p, At(Copy(k, n, rows, Row(c, score.gold, score.silver, 0, 0, 0), 2), mem),
        At(Copy(k, n, rows, Row(c, score.gold, score.silver, score.bronze, 0, 0), 3), mem), end);
  }

  lemma ScanDone(p: Program, mem: Memory, end: Config)
    requires Reranks(p)
    requires Reaches(p, At(Publish(Standings.RowsOf(mem.state.buckets.countryScores)), mem), end)
    ensures Scanned(p, |mem.state.buckets.countryScores.order|, mem, end)
  {
    var t := mem.state.buckets.countryScores;
    var rows, n := Standings.RowsOf(t), |t.order|;
    RowsSoFar(t, n);
    Hop(p, At(Scan(n, n, rows), mem), At(Publish(rows), mem), end);
  }

  /** From the k-th entry of the scan on, the request reaches `end`. */
  ghost predicate Scanned(p: Program, k: nat, mem: Memory, end: Config)
    requires k <= |mem.state.buckets.countryScores.order|
  {
    var t := mem.state.buckets.countryScores;
    Reaches(p, At(Scan(k, |t.order|, Standings.RowsOf(t)[..k]), mem), end)
  }

  /** The scan of the scores, which nothing disturbs when the request runs alone. */
  lemma {:induction false} ScanLoop(p: Program, k: nat, n: nat, mem: Memory, end: Config)
    requires Reranks(p)
    requires n == |mem.state.buckets.countryScores.order| && k <= n
    requires Scanned(p, n, mem, end)
    ensures Scanned(p, k, mem, end)
    decreases n - k
  {
    if k < n {
      ScanLoop(p, k + 1, n, mem, end);
      ScanStep(p, k, mem, end);
    }
  }

  /** The memory once the standings rank its scores. */
  function Reranked(mem: Memory): Memory {
    With(mem, mem.state.buckets.(standings := Some(Standings.Ranking(mem.state.buckets.countryScores))))
  }

  lemma {:induction false} RerankRuns(p: Program, mem: Memory, end: Config)
    requires Reranks(p)
    requires Reaches(p, At(Record(|mem.state.buckets.countryScores.order|, true), Reranked(mem)), end)
    ensures Reaches(p, At(StartScan, mem), end)
  {
    var t := mem.state.buckets.countryScores;
    Hop(p, At(Publish(Standings.RowsOf(t)), mem), At(Record(|t.order|, true), Reranked(mem)), end);
    RowsSoFar(t, 0);
    ScanDone(p, mem, end);
    ScanLoop(p, 0, |t.order|, mem, end);
    Hop(p, At(StartScan, mem), At(Scan(0, |t.order|, []), mem), end);
  }

  lemma RecomputeRuns(p: Program, mem: Memory)
    requires Reranks(p)
    requires p(At(Begin, mem)) == At(StartScan, mem)
    requires var n := |mem.state.buckets.countryScores.order|;
             p(At(Record(n, true), Reranked(mem))) ==
             At(Return(Reply(true, RecomputedFor(n))), Logging(Reranked(mem), StandingsRecomputed(n)))
    ensures var n := |mem.state.buckets.countryScores.order|;
            Reaches(p, At(Begin, mem),
                    At(Return(Reply(true, RecomputedFor(n))), Logging(Reranked(mem), StandingsRecomputed(n))))
  {
    var n := |mem.state.buckets.countryScores.order|;
    var end := At(Return(Reply(true, RecomputedFor(n))), Logging(Reranked(mem), StandingsRecomputed(n)));
    Here(p, end);
    Hop(p, At(Record(n, true), Reranked(mem)), end, end);
    RerankRuns(p, mem, end);
    Hop(p, At(Begin, mem), At(StartScan, mem), end);
  }

  /** The cascade's memory effect, one stage after the other. */
  lemma CascadeMemory(mem: Memory, m: string, stream: string, details: string)
    ensures var e := Semantics.GoLive(mem.state.buckets, m, stream, details);
            Logging(Reranked(PutStream(Announced(mem, m, "live"), stream, m)), WentLive(m, stream)) ==
            EndWith(e, Monolith.GoLiveEntries(mem.state.buckets, m, stream), mem).mem
  {
    var all := Semantics.Deliveries(m, Semantics.SubscribersOf(mem.state.buckets, m), "live");
    assert (mem.state.log + all) + [WentLive(m, stream)] == mem.state.log + (all + [WentLive(m, stream)]);
  }

  lemma GoLiveRuns(m: string, stream: string, p: Program, mem: Memory)
    requires Delivers(p, m, "live", OnAir, OnAir) && Reranks(p)
    requires var announced := Announced(mem, m, "live");
             p(At(OnAir, announced)) == At(StartScan, PutStream(announced, stream, m))
    requires var ranked := Reranked(PutStream(Announced(mem, m, "live"), stream, m));
             p(At(Record(|ranked.state.buckets.countryScores.order|, true), ranked)) ==
             At(Return(Reply(true, IsLiveOn(m, stream))), Logging(ranked, WentLive(m, stream)))
    ensures Reaches(p, At(Begin, mem),
                    At(Return(Reply(true, IsLiveOn(m, stream))),
                       Logging(Reranked(PutStream(Announced(mem, m, "live"), stream, m)), WentLive(m, stream))))
  {
    var announced := Announced(mem, m, "live");
    var streaming := PutStream(announced, stream, m);
    var end := At(Return(Reply(true, IsLiveOn(m, stream))), Logging(Reranked(streaming), WentLive(m, stream)));
    Here(p, end);
    Hop(p, At(Record(|streaming.state.buckets.countryScores.order|, true), Reranked(streaming)), end, end);
    RerankRuns(p, streaming, end);
    Hop(p, At(OnAir, announced), At(StartScan, streaming), end);
    Announcement(m, "live", OnAir, OnAir, p, mem, end);
  }

  lemma GoLiveScans(ref: Roster, m: string, stream: string, details: Option<string>, pc: Pc, mem: Memory)
    requires Scanning(pc)
    ensures Micro(ref, Op.GoLive(m, stream, details), At(pc, mem)) == Rerank(pc, mem)
  {
  }

  lemma GoLiveReranks(ref: Roster, m: string, stream: string, details: Option<string>)
    ensures Reranks(ProgramOf(ref, Op.GoLive(m, stream, details)))
  {
    var p := ProgramOf(ref, Op.GoLive(m, stream, details));
    forall pc: Pc, mem | Scanning(pc) ensures p(At(pc, mem)) == Rerank(pc, mem) {
      GoLiveScans(ref, m, stream, details, pc, mem);
    }
  }

  lemma GoLiveDelivers(ref: Roster, m: string, stream: string, details: Option<string>)
    ensures Delivers(ProgramOf(ref, Op.GoLive(m, stream, details)), m, "live", OnAir, OnAir)
  {
    var p := ProgramOf(ref, Op.GoLive(m, stream, details));
    forall k: nat, l, mem ensures p(At(Deliver(k, l), mem)) == NextDelivery(m, k, l, OnAir, mem) {
      GoLiveDelivery(ref, m, stream, details, k, l, mem);
    }
    forall pc: Pc, mem | Announcing(pc) ensures p(At(pc, mem)) == Announce(m, "live", pc, mem) {
      GoLiveAnnounces(ref, m, stream, details, pc, mem);
    }
  }

  lemma GoLiveDelivery(ref: Roster, m: string, stream: string, details: Option<string>, k: nat, live: bool, mem: Memory)
    ensures Micro(ref, Op.GoLive(m, stream, details), At(Deliver(k, live), mem)) == NextDelivery(m, k, live, OnAir, mem)
  {
  }

  lemma GoLiveAnnounces(ref: Roster, m: string, stream: string, details: Option<string>, pc: Pc, mem: Memory)
    requires Announcing(pc)
    ensures Micro(ref, Op.GoLive(m, stream, details), At(pc, mem)) == Announce(m, "live", pc, mem)
  {
  }

  lemma GoLiveOnAir(ref: Roster, m: string, stream: string, details: Option<string>, mem: Memory)
    ensures ProgramOf(ref, Op.GoLive(m, stream, details))(At(OnAir, mem)) == At(StartScan, PutStream(mem, stream, m))
  {
  }

  lemma GoLiveEnds(ref: Roster, m: string, stream: string, details: Option<string>, n: nat, mem: Memory)
    ensures ProgramOf(ref, Op.GoLive(m, stream, details))(At(Record(n, true), mem)) ==
            At(Return(Reply(true, IsLiveOn(m, stream))), Logging(mem, WentLive(m, stream)))
  {
  }

  lemma GoLiveAlone(ref: Roster, m: string, stream: string, details: Option<string>, mem: Memory)
    ensures var e := Semantics.GoLive(mem.state.buckets, m, stream, GetOr(details, "match is live"));
            Reaches(ProgramOf(ref, Op.GoLive(m, stream, details)), At(Begin, mem),
                    EndWith(e, Monolith.GoLiveEntries(mem.state.buckets, m, stream), mem))
  {
    var p := ProgramOf(ref, Op.GoLive(m, stream, details));
    var streaming := PutStream(Announced(mem, m, "live"), stream, m);
    GoLiveReranks(ref, m, stream, details);
    GoLiveDelivers(ref, m, stream, details);
    GoLiveOnAir(ref, m, stream, details, Announced(mem, m, "live"));
    GoLiveEnds(ref, m, stream, details, |streaming.state.buckets.countryScores.order|, Reranked(streaming));
    GoLiveRuns(m, stream, p, mem);
    CascadeMemory(mem, m, stream, GetOr(details, "match is live"));
  }

  lemma RecomputeScans(ref: Roster, pc: Pc, mem: Memory)
    requires Scanning(pc)
    ensures Micro(ref, Op.RecomputeStandings, At(pc, mem)) == Rerank(pc, mem)
  {
  }

  lemma RecomputeReranks(ref: Roster)
    ensures Reranks(ProgramOf(ref, Op.RecomputeStandings))
  {
    forall pc: Pc, mem | Scanning(pc) ensures ProgramOf(ref, Op.RecomputeStandings)(At(pc, mem)) == Rerank(pc, mem) {
      RecomputeScans(ref, pc, mem);
    }
  }

  lemma RecomputeEnds(ref: Roster, n: nat, mem: Memory)
    ensures ProgramOf(ref, Op.RecomputeStandings)(At(Record(n, true), mem)) ==
            At(Return(Reply(true, RecomputedFor(n))), Logging(mem, StandingsRecomputed(n)))
  {
  }

  lemma RecomputeStarts(ref: Roster, mem: Memory)
    ensures ProgramOf(ref, Op.RecomputeStandings)(At(Begin, mem)) == At(StartScan, mem)
  {
  }

  lemma RecomputeAlone(ref: Roster, mem: Memory)
    ensures var e := Semantics.RecomputeStandings(mem.state.buckets);
            Reaches(ProgramOf(ref, Op.RecomputeStandings), At(Begin, mem), EndWith(e, e.entries, mem))
  {
    var p := ProgramOf(ref, Op.RecomputeStandings);
    var n := |mem.state.buckets.countryScores.order|;
    RecomputeReranks(ref);
    RecomputeEnds(ref, n, Reranked(mem));
    RecomputeStarts(ref, mem);
    RecomputeRuns(p, mem);
  }

  lemma ProgramFacts(ref: Roster, op: Op)
    ensures Halts(ProgramOf(ref, op))
    ensures forall mem :: ProgramOf(ref, op)(At(Enter, mem)) == At(Begin, mem.(actor := Monolith.ActorOf(op)))
  {
  }

  predicate TouchesPlaces(op: Op) {
    op.BookVenueSlot? || op.ReleaseVenueSlot? || op.BookTicket? || op.AssignVolunteer? || op.DispatchShuttle?
    || op.ReserveRestaurantTable?
  }

  /** The rest of a request's run, from the step after its `_CTX` write. */
  ghost predicate BodyRuns(ref: Roster, op: Op, mem: Memory) {
    Reaches(ProgramOf(ref, op), At(Begin, mem),
            EndWith(Semantics.Apply(ref, op, mem.state.buckets), Monolith.Entries(ref, op, mem.state.buckets), mem))
  }

  lemma PlacesRun(ref: Roster, op: Op, mem: Memory)
    requires TouchesPlaces(op) && mem.actor == Monolith.ActorOf(op)
    ensures BodyRuns(ref, op, mem)
  {
    var p := ProgramOf(ref, op);
    match op {
      case BookVenueSlot(v, m) => BookVenueRuns(ref, v, m, p, mem);
      case ReleaseVenueSlot(v) => ReleaseVenueRuns(v, p, mem);
      case BookTicket(m, seat, user) => BookTicketRuns(ref, m, seat, user, p, mem);
      case AssignVolunteer(volunteer, venue) => AssignVolunteerRuns(ref, volunteer, venue, p, mem);
      case DispatchShuttle(id, route, _, _) => DispatchShuttleRuns(id, route, BoardingOf(op), CapacityOf(op), p, mem);
      case ReserveRestaurantTable(a, r, party) => ReserveTableRuns(ref, a, r, party, p, mem);
    }
  }

  lemma OthersRun(ref: Roster, op: Op, mem: Memory)
    requires !TouchesPlaces(op)
    ensures BodyRuns(ref, op, mem)
  {
    var p := ProgramOf(ref, op);
    match op {
      case SubscribeToUpdates(user, topic) => SubscribeRuns(ref, user, topic, p, mem);
      case PushLiveEvent(m, e, details) => PushRuns(m, e, GetOr(details, ""), p, mem);
      case UpdateCountryScore(c, medal) => UpdateScoreRuns(ref, c, medal, p, mem);
      case AllocateStream(stream, m) => AllocateStreamRuns(stream, m, p, mem);
      case RecomputeStandings => RecomputeAlone(ref, mem);
      case GoLive(m, stream, details) => GoLiveAlone(ref, m, stream, details, mem);
      case ProjectMedals(c, n) => OneStepRuns(ref, op, mem);
      case RenderHighlight(h, corrupt) => OneStepRuns(ref, op, mem);
    }
  }

  lemma OneStepRuns(ref: Roster, op: Op, mem: Memory)
    requires op.ProjectMedals? || op.RenderHighlight?
    ensures BodyRuns(ref, op, mem)
  {
    var p := ProgramOf(ref, op);
    assert mem.state.log + [] == mem.state.log;
    Here(p, p(At(Begin, mem)));
    Hop(p, At(Begin, mem), p(At(Begin, mem)), p(At(Begin, mem)));
  }

  /** Run alone from any memory, a request's single reads and writes add up to the monolith's atomic effect. */
  lemma {:induction false} RunsAlone(ref: Roster, op: Op, mem: Memory)
    ensures var e := Semantics.Apply(ref, op, mem.state.buckets);
            Reaches(ProgramOf(ref, op), At(Enter, mem),
                    At(if e.reply.None? then Die else Return(e.reply.value),
                       Memory(Monolith.After(ref, op, mem.state), Monolith.ActorOf(op))))
  {
    var mem1 := mem.(actor := Monolith.ActorOf(op));
    var e := Semantics.Apply(ref, op, mem.state.buckets);
    if TouchesPlaces(op) { PlacesRun(ref, op, mem1); } else { OthersRun(ref, op, mem1); }
    ProgramFacts(ref, op);
    Hop(ProgramOf(ref, op), At(Enter, mem), At(Begin, mem1),
        EndWith(e, Monolith.Entries(ref, op, mem.state.buckets), mem1));
  }
}
