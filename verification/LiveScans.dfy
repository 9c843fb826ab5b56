/** Ranking while others award medals: what a scan of the score table has read when it ends. */
module LiveScans {
  import opened Domain
  import opened MonolithThreads
  import opened ThreadedServer
  import Semantics

  /** The countries with a score, in the order of their first award. */
  function Order(mem: Memory): seq<string> { mem.state.buckets.countryScores.order }

  ghost predicate Lists(rows: seq<Row>, order: seq<string>) {
    |rows| <= |order| && forall k :: 0 <= k < |rows| ==> rows[k].country == order[k]
  }

  /** A scan has read the first countries of the table, one after the other. */
  ghost predicate ScanOk(pc: Pc, order: seq<string>) {
    match pc
    case Scan(k, size, rows) => k == |rows| <= size <= |order| && Lists(rows, order)
    case Copy(k, size, rows, row, _) =>
      k == |rows| + 1 <= size <= |order| && Lists(rows, order) && row.country == order[k - 1]
    case _ => true
  }

  lemma ScanStaysOk(pc: Pc, order: seq<string>, longer: seq<string>)
    requires ScanOk(pc, order) && order <= longer
    ensures ScanOk(pc, longer)
  {
  }

  /** Countries are added at the end only. */
  lemma OrderGrows(ref: Roster, op: Op, c: Config)
    ensures Order(c.mem) <= Order(Micro(ref, op, c).mem)
  {
    match op {
      case UpdateCountryScore(country, medal) => AwardGrows(ref, country, medal, c.pc, c.mem);
      case _ => OthersKeepOrder(ref, op, c);
    }
  }

  lemma AwardGrows(ref: Roster, country: string, medal: string, pc: Pc, mem: Memory)
    ensures Order(mem) <= Order(MonolithThreads.UpdateCountryScore(ref, country, medal, pc, mem).mem)
  {
  }

  function ScoresOf(mem: Memory): ScoreTable { mem.state.buckets.countryScores }

  lemma OthersKeepOrder(ref: Roster, op: Op, c: Config)
    requires !op.UpdateCountryScore?
    ensures ScoresOf(Micro(ref, op, c).mem) == ScoresOf(c.mem)
  {
    if Live(c.pc) {
      var pc, mem := c.pc, c.mem;
      match op {
        case BookVenueSlot(v, m) => VenuesKeepScores(ref, v, m, pc, mem);
        case ReleaseVenueSlot(v) => VenuesKeepScores(ref, v, "", pc, mem);
        case BookTicket(m, seat, user) => TicketKeepsScores(ref, m, seat, user, pc, mem);
        case AssignVolunteer(volunteer, venue) => VolunteerKeepsScores(ref, volunteer, venue, pc, mem);
        case DispatchShuttle(id, route, _, _) => ShuttleKeepsScores(id, route, BoardingOf(op), CapacityOf(op), pc, mem);
        case ReserveRestaurantTable(a, r, party) => TableKeepsScores(ref, a, r, party, pc, mem);
        case SubscribeToUpdates(user, topic) => SubscriptionKeepsScores(ref, user, topic, pc, mem);
        case PushLiveEvent(m, e, details) => PushKeepsScores(m, e, GetOr(details, ""), pc, mem);
        case AllocateStream(stream, m) => StreamKeepsScores(stream, m, pc, mem);
        case RecomputeStandings => RankingKeepsScores(pc, mem);
        case GoLive(m, stream, _) => GoLiveKeepsScores(m, stream, pc, mem);
        case _ =>
      }
    }
  }

  lemma VenuesKeepScores(ref: Roster, v: string, m: string, pc: Pc, mem: Memory)
    ensures ScoresOf(MonolithThreads.BookVenueSlot(ref, v, m, pc, mem).mem) == ScoresOf(mem)
    ensures ScoresOf(MonolithThreads.ReleaseVenueSlot(v, pc, mem).mem) == ScoresOf(mem)
  {
  }

  lemma TicketKeepsScores(ref: Roster, m: string, seat: string, user: string, pc: Pc, mem: Memory)
    ensures ScoresOf(MonolithThreads.BookTicket(ref, m, seat, user, pc, mem).mem) == ScoresOf(mem)
  {
  }

  lemma VolunteerKeepsScores(ref: Roster, volunteer: string, venue: string, pc: Pc, mem: Memory)
    ensures ScoresOf(MonolithThreads.AssignVolunteer(ref, volunteer, venue, pc, mem).mem) == ScoresOf(mem)
  {
  }

  lemma ShuttleKeepsScores(id: string, route: string, boarding: int, capacity: int, pc: Pc, mem: Memory)
    ensures ScoresOf(MonolithThreads.DispatchShuttle(id, route, boarding, capacity, pc, mem).mem) == ScoresOf(mem)
  {
  }

  lemma TableKeepsScores(ref: Roster, athlete: string, restaurant: string, party: int, pc: Pc, mem: Memory)
    ensures ScoresOf(MonolithThreads.ReserveRestaurantTable(ref, athlete, restaurant, party, pc, mem).mem) ==
            ScoresOf(mem)
  {
  }

  lemma SubscriptionKeepsScores(ref: Roster, user: string, topic: string, pc: Pc, mem: Memory)
    ensures ScoresOf(MonolithThreads.SubscribeToUpdates(ref, user, topic, pc, mem).mem) == ScoresOf(mem)
  {
  }

  lemma PushKeepsScores(m: string, eventType: string, details: string, pc: Pc, mem: Memory)
    ensures ScoresOf(MonolithThreads.PushLiveEvent(m, eventType, details, pc, mem).mem) == ScoresOf(mem)
  {
  }

  lemma StreamKeepsScores(stream: string, m: string, pc: Pc, mem: Memory)
    ensures ScoresOf(MonolithThreads.AllocateStream(stream, m, pc, mem).mem) == ScoresOf(mem)
  {
  }

  lemma RankingKeepsScores(pc: Pc, mem: Memory)
    ensures ScoresOf(MonolithThreads.RecomputeStandings(pc, mem).mem) == ScoresOf(mem)
    ensures ScoresOf(Rerank(pc, mem).mem) == ScoresOf(mem)
  {
  }

  lemma GoLiveKeepsScores(m: string, stream: string, pc: Pc, mem: Memory)
    ensures ScoresOf(MonolithThreads.GoLive(m, stream, pc, mem).mem) == ScoresOf(mem)
  {
    RankingKeepsScores(pc, mem);
  }

  lemma RerankScans(pc: Pc, mem: Memory)
    requires ScanOk(pc, Order(mem))
    ensures ScanOk(Rerank(pc, mem).pc, Order(mem))
  {
  }

  lemma MicroScans(ref: Roster, op: Op, c: Config)
    requires ScanOk(c.pc, Order(c.mem))
    ensures ScanOk(Micro(ref, op, c).pc, Order(c.mem))
  {
    if Scanning(c.pc) { RerankScans(c.pc, c.mem); } else { StartsNoScan(ref, op, c); }
  }

  lemma StartsNoScan(ref: Roster, op: Op, c: Config)
    requires !Scanning(c.pc)
    ensures var pc := Micro(ref, op, c).pc; !pc.Scan? && !pc.Copy?
  {
  }

  lemma StepScans(ref: Roster, op: Op, c: Config)
    requires ScanOk(c.pc, Order(c.mem))
    ensures ScanOk(Micro(ref, op, c).pc, Order(Micro(ref, op, c).mem))
  {
    MicroScans(ref, op, c);
    OrderGrows(ref, op, c);
    ScanStaysOk(Micro(ref, op, c).pc, Order(c.mem), Order(Micro(ref, op, c).mem));
  }

  lemma NextScans(ref: Roster, locked: bool, ops: seq<Op>, p: Process, a: Action, i: nat)
    requires i < |ops| == |p.threads| && ScanOk(PcOf(p.threads[i]), Order(p.mem))
    ensures var next := Next(ref, locked, ops, p, a); ScanOk(PcOf(next.threads[i]), Order(next.mem))
  {
    if a.Step? && Enabled(locked, p, a) {
      var c := At(p.threads[a.who].pc, p.mem);
      if a.who == i {
        StepScans(ref, ops[i], c);
      } else {
        OrderGrows(ref, ops[a.who], c);
        ScanStaysOk(PcOf(p.threads[i]), Order(p.mem), Order(Micro(ref, ops[a.who], c).mem));
      }
    }
  }

  lemma {:induction false} AlwaysScans(ref: Roster, locked: bool, ops: seq<Op>, trace: seq<Action>, i: nat)
    requires i < |ops|
    ensures var p := Run(ref, locked, ops, trace); ScanOk(PcOf(p.threads[i]), Order(p.mem))
  {
    if trace != [] {
      var init := trace[..|trace| - 1];
      AlwaysScans(ref, locked, ops, init, i);
      NextScans(ref, locked, ops, Run(ref, locked, ops, init), trace[|trace| - 1], i);
    }
  }

  /**
   * In every run, locked or not, a scan that gets to publishing has one row for every country in the table at that
   * moment, in the table's order; it raises instead when a country came in meanwhile.
   */
  lemma {:induction false} ScansAreComplete(ref: Roster, locked: bool, ops: seq<Op>, trace: seq<Action>, i: nat)
    requires i < |ops| && Run(ref, locked, ops, trace).threads[i].Running?
    requires var pc := Run(ref, locked, ops, trace).threads[i].pc; pc.Scan? && pc.next == pc.size
    requires ops[i].RecomputeStandings? || ops[i].GoLive?
    ensures var p := Run(ref, locked, ops, trace);
            var pc, next := p.threads[i].pc, Micro(ref, ops[i], At(p.threads[i].pc, p.mem)).pc;
            var countries := p.mem.state.buckets.countryScores.order;
            if |countries| == pc.size then
              next == Publish(pc.rows) && |pc.rows| == |countries|
              && forall k :: 0 <= k < |countries| ==> pc.rows[k].country == countries[k]
            else next == Raise
  {
    AlwaysScans(ref, locked, ops, trace, i);
  }
}
