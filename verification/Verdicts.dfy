/** What the protocols guarantee about the checkers' verdicts: seats sold once, passengers conserved, owners correct. */
module Verdicts {
  import opened Domain
  import opened Tallies
  import Semantics
  import Histories
  import FaasProtocol
  import Subsequences
  import Monolith
  import SeatOwners
  import ThreadedServer

  /**
   * A sequential order behind a set of records. `place` says where in the order each record's call stands, None for a
   * call whose effect is not in it. A placed call that has a result has the one it gets at its place.
   */
  ghost predicate Explains(ref: Roster, serial: seq<Op>, records: seq<Record>, place: seq<Option<nat>>) {
    && |place| == |records|
    && (forall k :: 0 <= k < |records| && place[k].Some? ==>
          && place[k].value < |serial| && serial[place[k].value] == records[k].op
          && (records[k].result.Some? ==> records[k].result == Semantics.ReplyAt(ref, serial, place[k].value)))
    && (forall j, k :: 0 <= j < k < |records| && place[j].Some? ==> place[j] != place[k])
  }

  // ---- Passengers ----------------------------------------------------------

  function Total(ws: seq<int>): int {
    if ws == [] then 0 else Total(ws[..|ws| - 1]) + ws[|ws| - 1]
  }

  /** The weights at the positions in s. */
  function SumIn(ws: seq<int>, s: set<nat>): int {
    if ws == [] then 0
    else SumIn(ws[..|ws| - 1], s) + (if |ws| - 1 in s then ws[|ws| - 1] else 0)
  }

  lemma {:induction false} SumInAdds(ws: seq<int>, s: set<nat>, p: nat)
    requires p !in s
    ensures SumIn(ws, s + {p}) == SumIn(ws, s) + (if p < |ws| then ws[p] else 0)
  {
    if ws != [] { SumInAdds(ws[..|ws| - 1], s, p); }
  }

  /** The weights at the other positions. */
  function SumOut(ws: seq<int>, s: set<nat>): int {
    if ws == [] then 0
    else SumOut(ws[..|ws| - 1], s) + (if |ws| - 1 in s then 0 else ws[|ws| - 1])
  }

  lemma {:induction false} SumsToTotal(ws: seq<int>, s: set<nat>)
    ensures SumIn(ws, s) + SumOut(ws, s) == Total(ws)
  {
    if ws != [] { SumsToTotal(ws[..|ws| - 1], s); }
  }

  lemma {:induction false} SumOutNone(ws: seq<int>, s: set<nat>)
    requires forall p: nat :: p < |ws| ==> p in s
    ensures SumOut(ws, s) == 0
  {
    if ws != [] { SumOutNone(ws[..|ws| - 1], s); }
  }

  lemma {:induction false} SumInNone(ws: seq<int>)
    ensures SumIn(ws, {}) == 0
  {
    if ws != [] { SumInNone(ws[..|ws| - 1]); }
  }

  /** What the p-th request of the order boards. */
  ghost function Load(ref: Roster, serial: seq<Op>, id: string, p: nat): int
    requires p < |serial|
  {
    if Histories.Dispatches(serial[p], id) && IsOk(Semantics.ReplyAt(ref, serial, p)) then BoardingOf(serial[p]) else 0
  }

  ghost function Loads(ref: Roster, serial: seq<Op>, id: string): seq<int> {
    seq(|serial|, p requires 0 <= p < |serial| => Load(ref, serial, id, p))
  }

  lemma {:induction false} LoadsAreBoarded(ref: Roster, serial: seq<Op>, id: string)
    ensures Total(Loads(ref, serial, id)) == Histories.Boarded(ref, serial, id)
  {
    if serial != [] {
      var n := |serial| - 1;
      LoadsAreBoarded(ref, serial[..n], id);
      forall p: nat | p < n ensures Load(ref, serial, id, p) == Load(ref, serial[..n], id, p) {
        assert serial[..n][..p] == serial[..p];
      }
      assert Loads(ref, serial, id)[..n] == Loads(ref, serial[..n], id);
    }
  }

  /** The positions whose outcome some record reports. */
  function Reported(records: seq<Record>, place: seq<Option<nat>>): (s: set<nat>)
    requires |place| == |records|
    ensures forall p :: p in s <==> exists k :: 0 <= k < |records| && place[k] == Some(p) && records[k].result.Some?
  {
    if records == [] then {}
    else
      var n := |records| - 1;
      Reported(records[..n], place[..n]) +
      (if place[n].Some? && records[n].result.Some? then {place[n].value} else {})
  }

  /** Seats boarded according to records whose effect is not in the order: the lost updates. */
  function Lost(records: seq<Record>, place: seq<Option<nat>>, id: string): int
    requires |place| == |records|
  {
    if records == [] then 0
    else
      var n := |records| - 1;
      Lost(records[..n], place[..n], id) +
      (if place[n].None? && Boards(records[n], id) then BoardingOf(records[n].op) else 0)
  }

  lemma {:induction false} BoardingsSplit(ref: Roster, serial: seq<Op>, records: seq<Record>, place: seq<Option<nat>>,
                                          id: string)
    requires Explains(ref, serial, records, place)
    ensures Boardings(records, id) == SumIn(Loads(ref, serial, id), Reported(records, place)) + Lost(records, place, id)
  {
    var ws := Loads(ref, serial, id);
    if records == [] {
      SumInNone(ws);
    } else {
      var n := |records| - 1;
      BoardingsSplit(ref, serial, records[..n], place[..n], id);
      if place[n].Some? && records[n].result.Some? {
        SumInAdds(ws, Reported(records[..n], place[..n]), place[n].value);
      } else {
        assert Reported(records, place) == Reported(records[..n], place[..n]);
      }
    }
  }

  /** What the order boarded at the positions no record reports, because the caller died before answering. */
  ghost function Unreported(ref: Roster, serial: seq<Op>, records: seq<Record>, place: seq<Option<nat>>,
                            id: string): int
    requires |place| == |records|
  {
    SumOut(Loads(ref, serial, id), Reported(records, place))
  }

  /**
   * The books always balance: what the callers were told they boarded, and what was boarded without anybody being
   * told, is what the shuttle carries, and what was lost to stale saves.
   */
  lemma {:induction false} BoardingBalance(ref: Roster, serial: seq<Op>, records: seq<Record>,
                                           place: seq<Option<nat>>, id: string)
    requires Explains(ref, serial, records, place)
    ensures Boardings(records, id) + Unreported(ref, serial, records, place, id) ==
            Histories.PassengersOf(Semantics.Replay(ref, serial).buckets, id) + Lost(records, place, id)
  {
    BoardingsSplit(ref, serial, records, place, id);
    SumsToTotal(Loads(ref, serial, id), Reported(records, place));
    LoadsAreBoarded(ref, serial, id);
    Histories.PassengersAreBoarded(ref, serial, id);
  }

  ghost predicate AllReported(serial: seq<Op>, records: seq<Record>, place: seq<Option<nat>>)
    requires |place| == |records|
  {
    forall p: nat :: p < |serial| ==> p in Reported(records, place)
  }

  /** Every accepted call's effect is in the order. */
  predicate NothingLost(records: seq<Record>, place: seq<Option<nat>>)
    requires |place| == |records|
  {
    forall k :: 0 <= k < |records| && IsOk(records[k].result) && !records[k].op.ProjectMedals? ==> place[k].Some?
  }

  predicate SeatsNonNegative(records: seq<Record>) {
    forall k :: 0 <= k < |records| && records[k].op.DispatchShuttle? ==> BoardingOf(records[k].op) >= 0
  }

  lemma {:induction false} LostNothing(records: seq<Record>, place: seq<Option<nat>>, id: string)
    requires |place| == |records|
    ensures NothingLost(records, place) ==> Lost(records, place, id) == 0
    ensures SeatsNonNegative(records) ==> Lost(records, place, id) >= 0
  {
    if records != [] {
      var n := |records| - 1;
      LostNothing(records[..n], place[..n], id);
    }
  }

  /**
   * When everybody has answered: never more aboard than the callers were told, and exactly that if nothing was lost.
   */
  lemma {:induction false} PassengerVerdict(ref: Roster, serial: seq<Op>, records: seq<Record>,
                                            place: seq<Option<nat>>, id: string)
    requires Explains(ref, serial, records, place) && AllReported(serial, records, place)
    ensures SeatsNonNegative(records) ==>
              Histories.PassengersOf(Semantics.Replay(ref, serial).buckets, id) <= Boardings(records, id)
    ensures NothingLost(records, place) ==>
              Histories.PassengersOf(Semantics.Replay(ref, serial).buckets, id) == Boardings(records, id)
  {
    BoardingBalance(ref, serial, records, place, id);
    LostNothing(records, place, id);
    SumOutNone(Loads(ref, serial, id), Reported(records, place));
  }

  /** The capacity flag is raised exactly for requests that overload the shuttle, which takes a capacity below zero. */
  lemma {:induction false} CapacityVerdict(ref: Roster, serial: seq<Op>, id: string)
    ensures var b := Semantics.Replay(ref, serial).buckets;
            && (Histories.PassengersOf(b, id) > CapacityIn(b, id) <==> Histories.Overloads(serial, id))
            && (CapacityIn(b, id) >= 0 ==> !Histories.Overloads(serial, id))
  {
    Histories.OverCapacityIff(ref, serial, id);
    Histories.CapacityAndRoute(ref, serial, id);
  }

  // ---- Seats ---------------------------------------------------------------

  lemma AcceptedBookingBids(ref: Roster, b: Buckets, m: string, seat: string, user: string)
    ensures IsOk(Semantics.BookTicket(ref, b, m, seat, user).reply) ==> user in ref.users
  {
  }

  predicate SoldFor(r: Record, m: string, seat: string) {
    r.op.BookTicket? && r.op.matchId == m && r.op.seatId == seat && IsOk(r.result)
  }

  lemma SaleIsFirstBid(ref: Roster, serial: seq<Op>, records: seq<Record>, place: seq<Option<nat>>, k: nat, m: string,
                       seat: string)
    requires Explains(ref, serial, records, place) && k < |records| && place[k].Some? && SoldFor(records[k], m, seat)
    ensures Histories.FirstBid(ref, serial, m, seat, place[k].value)
  {
    var p := place[k].value;
    AcceptedBookingBids(ref, Semantics.Replay(ref, serial[..p]).buckets, m, seat, records[k].op.userId);
    assert Semantics.ReplyAt(ref, serial, p) ==
           Semantics.BookTicket(ref, Semantics.Replay(ref, serial[..p]).buckets, m, seat, records[k].op.userId).reply;
    Histories.OneWinner(ref, serial, m, seat, p);
  }

  /** No seat of a match is ever sold to two callers whose effects are both in the order. */
  lemma SoldOnce(ref: Roster, serial: seq<Op>, records: seq<Record>, place: seq<Option<nat>>, j: nat, k: nat,
                 m: string, seat: string)
    requires Explains(ref, serial, records, place) && j < |records| && k < |records|
    requires place[j].Some? && place[k].Some? && SoldFor(records[j], m, seat) && SoldFor(records[k], m, seat)
    ensures j == k
  {
    SaleIsFirstBid(ref, serial, records, place, j, m, seat);
    SaleIsFirstBid(ref, serial, records, place, k, m, seat);
  }

  ghost predicate SoldInTwoMatches(records: seq<Record>, seat: string) {
    exists j, k :: 0 <= j < k < |records| && SeatSale(records[j], seat) && SeatSale(records[k], seat)
                   && records[j].op.matchId != records[k].op.matchId
  }

  /**
   * The tally keys seats by ID alone, so with nothing lost it cries double sale exactly for an ID sold in two
   * matches.
   */
  lemma {:induction false} DoubleSaleVerdict(ref: Roster, serial: seq<Op>, records: seq<Record>,
                                             place: seq<Option<nat>>, seat: string)
    requires Explains(ref, serial, records, place) && NothingLost(records, place)
    ensures SoldTwice(records, seat) <==> SoldInTwoMatches(records, seat)
  {
    if SoldTwice(records, seat) {
      var j, k :| 0 <= j < k < |records| && SeatSale(records[j], seat) && SeatSale(records[k], seat);
      if records[j].op.matchId == records[k].op.matchId {
        SoldOnce(ref, serial, records, place, j, k, records[j].op.matchId, seat);
      }
    }
  }

  /** A valid request for a seat with this ID, whatever the match. */
  predicate Asks(ref: Roster, op: Op, seat: string) { op.BookTicket? && op.seatId == seat && op.userId in ref.users }

  /** In the rush, rostered users ask for the seat ID in two different matches. */
  ghost predicate AskedInTwoMatches(ref: Roster, ops: seq<Op>, phases: seq<string>, seat: string)
    requires |phases| == |ops|
  {
    exists j, k :: 0 <= j < k < |ops| && phases[j] == phases[k] == RUSH
                   && Asks(ref, ops[j], seat) && Asks(ref, ops[k], seat) && ops[j].matchId != ops[k].matchId
  }

  /** Nobody validly asks for the seat ID outside the rush. */
  ghost predicate RushOnly(ref: Roster, ops: seq<Op>, phases: seq<string>, seat: string)
    requires |phases| == |ops|
  {
    forall k :: 0 <= k < |ops| && Asks(ref, ops[k], seat) ==> phases[k] == RUSH
  }

  predicate Records(records: seq<Record>, ops: seq<Op>, phases: seq<string>) {
    && |records| == |ops| == |phases|
    && forall k :: 0 <= k < |records| ==> records[k].op == ops[k] && records[k].phase == phases[k]
  }

  lemma SaleAsks(ref: Roster, serial: seq<Op>, records: seq<Record>, place: seq<Option<nat>>, k: nat, seat: string)
    requires Explains(ref, serial, records, place) && NothingLost(records, place) && k < |records|
    requires records[k].op.BookTicket? && records[k].op.seatId == seat && IsOk(records[k].result)
    ensures Asks(ref, records[k].op, seat)
  {
    SaleIsFirstBid(ref, serial, records, place, k, records[k].op.matchId, seat);
  }

  /** With nothing lost, a double sale takes two valid requests for the seat ID in different matches. */
  lemma {:induction false} DoubleSaleAsked(ref: Roster, serial: seq<Op>, records: seq<Record>,
                                           place: seq<Option<nat>>, ops: seq<Op>, phases: seq<string>, seat: string)
    requires Explains(ref, serial, records, place) && NothingLost(records, place) && Records(records, ops, phases)
    ensures SoldTwice(records, seat) ==> AskedInTwoMatches(ref, ops, phases, seat)
  {
    if SoldTwice(records, seat) {
      DoubleSaleVerdict(ref, serial, records, place, seat);
      var j, k :| 0 <= j < k < |records| && SeatSale(records[j], seat) && SeatSale(records[k], seat)
                  && records[j].op.matchId != records[k].op.matchId;
      SaleAsks(ref, serial, records, place, j, seat);
      SaleAsks(ref, serial, records, place, k, seat);
      assert phases[j] == phases[k] == RUSH && Asks(ref, ops[j], seat) && Asks(ref, ops[k], seat);
    }
  }

  /** A valid request in the rush, with everybody answered, means somebody's sale of that seat of that match. */
  lemma {:induction false} AskedIsSold(ref: Roster, serial: seq<Op>, records: seq<Record>, place: seq<Option<nat>>,
                                       ops: seq<Op>, phases: seq<string>, seat: string, k: nat) returns (w: nat)
    requires Explains(ref, serial, records, place) && AllReported(serial, records, place) && NothingLost(records, place)
    requires Records(records, ops, phases) && RushOnly(ref, ops, phases, seat)
    requires k < |records| && Asks(ref, ops[k], seat) && place[k].Some?
    ensures w < |records| && SeatSale(records[w], seat) && records[w].op.matchId == ops[k].matchId
  {
    w := OneWinnerPerSeat(ref, serial, records, place, k, ops[k].matchId, seat);
    SaleAsks(ref, serial, records, place, w, seat);
    assert Asks(ref, ops[w], seat);
  }

  /** When the tally cries double sale, in terms of the requests. */
  lemma {:induction false} DoubleSaleIff(ref: Roster, serial: seq<Op>, records: seq<Record>, place: seq<Option<nat>>,
                                         ops: seq<Op>, phases: seq<string>, seat: string)
    requires Explains(ref, serial, records, place) && AllReported(serial, records, place) && NothingLost(records, place)
    requires Records(records, ops, phases) && RushOnly(ref, ops, phases, seat)
    requires forall k :: 0 <= k < |ops| && Asks(ref, ops[k], seat) ==> place[k].Some?
    ensures SoldTwice(records, seat) <==> AskedInTwoMatches(ref, ops, phases, seat)
  {
    DoubleSaleAsked(ref, serial, records, place, ops, phases, seat);
    if AskedInTwoMatches(ref, ops, phases, seat) {
      var j, k :| 0 <= j < k < |ops| && phases[j] == phases[k] == RUSH
                  && Asks(ref, ops[j], seat) && Asks(ref, ops[k], seat) && ops[j].matchId != ops[k].matchId;
      var v := AskedIsSold(ref, serial, records, place, ops, phases, seat, j);
      var w := AskedIsSold(ref, serial, records, place, ops, phases, seat, k);
      assert v < w || w < v;
    }
  }

  /** With nothing lost and no seat ID validly asked for in two matches, the tally counts no double sale. */
  lemma {:induction false} NoDoubleSale(ref: Roster, serial: seq<Op>, records: seq<Record>, place: seq<Option<nat>>,
                                        ops: seq<Op>, phases: seq<string>, seats: seq<string>)
    requires Explains(ref, serial, records, place) && NothingLost(records, place) && Records(records, ops, phases)
    requires Covers(records, seats) && forall seat :: !AskedInTwoMatches(ref, ops, phases, seat)
    ensures Doubles(records, seats) == 0
  {
    forall seat ensures !SoldTwice(records, seat) {
      DoubleSaleAsked(ref, serial, records, place, ops, phases, seat);
    }
    NoDoubleSaleIff(records, seats);
  }

  /** And without that the tally does accuse a correct run: one seat ID sold in each of two matches is a double sale. */
  lemma SoldInBothMatches(ref: Roster, m1: string, m2: string, seat: string, u1: string, u2: string)
    returns (records: seq<Record>)
    requires m1 != m2 && u1 in ref.users && u2 in ref.users
    ensures var ops := [BookTicket(m1, seat, u1), BookTicket(m2, seat, u2)];
            && records == [Record(RUSH, ops[0], Semantics.ReplyAt(ref, ops, 0)),
                           Record(RUSH, ops[1], Semantics.ReplyAt(ref, ops, 1))]
            && Covers(records, [seat]) && Doubles(records, [seat]) == 1
  {
    var ops := [BookTicket(m1, seat, u1), BookTicket(m2, seat, u2)];
    records := [Record(RUSH, ops[0], Semantics.ReplyAt(ref, ops, 0)),
                Record(RUSH, ops[1], Semantics.ReplyAt(ref, ops, 1))];
    assert Histories.FirstBid(ref, ops, m1, seat, 0) && Histories.FirstBid(ref, ops, m2, seat, 1);
    Histories.OneWinner(ref, ops, m1, seat, 0);
    Histories.OneWinner(ref, ops, m2, seat, 1);
    BothCounted(records, seat);
  }

  lemma BothCounted(records: seq<Record>, seat: string)
    requires |records| == 2 && SeatSale(records[0], seat) && SeatSale(records[1], seat)
    ensures Covers(records, [seat]) && Doubles(records, [seat]) == 1
  {
    forall other ensures SoldCount(records, other) == if other == seat then 2 else 0 {
      var one := records[..1];
      assert one[..0] == [] && records[..|records| - 1] == one;
      assert SoldCount(one, other) == if other == seat then 1 else 0;
    }
    assert [seat][..0] == [];
  }

  lemma {:induction false} FirstBidExists(ref: Roster, ops: seq<Op>, m: string, seat: string, i: nat) returns (p: nat)
    requires i < |ops| && Histories.Bids(ref, ops[i], m, seat)
    ensures p <= i && Histories.FirstBid(ref, ops, m, seat, p)
    decreases i
  {
    if j :| 0 <= j < i && Histories.Bids(ref, ops[j], m, seat) {
      p := FirstBidExists(ref, ops, m, seat, j);
    } else {
      p := i;
    }
  }

  /** One winner: a seat somebody validly asked for has exactly one accepted booking, and its user owns the seat. */
  lemma {:induction false} OneWinnerPerSeat(ref: Roster, serial: seq<Op>, records: seq<Record>,
                                            place: seq<Option<nat>>, k: nat, m: string, seat: string) returns (w: nat)
    requires Explains(ref, serial, records, place) && AllReported(serial, records, place) && NothingLost(records, place)
    requires k < |records| && place[k].Some? && Histories.Bids(ref, records[k].op, m, seat)
    ensures w < |records| && SoldFor(records[w], m, seat)
    ensures Histories.OwnerOf(Semantics.Replay(ref, serial).buckets, m, seat) == Some(records[w].op.userId)
    ensures forall j :: 0 <= j < |records| && SoldFor(records[j], m, seat) ==> j == w
  {
    var p := FirstBidExists(ref, serial, m, seat, place[k].value);
    Histories.OneWinner(ref, serial, m, seat, p);
    assert p in Reported(records, place);
    w :| 0 <= w < |records| && place[w] == Some(p) && records[w].result.Some?;
    forall j | 0 <= j < |records| && SoldFor(records[j], m, seat) ensures j == w {
      SoldOnce(ref, serial, records, place, j, w, m, seat);
    }
  }

  /** Whoever owns a seat bid for exactly that seat of that match. */
  lemma OwnerIsABidder(ref: Roster, ops: seq<Op>, m: string, seat: string) returns (i: nat)
    requires Histories.OwnerOf(Semantics.Replay(ref, ops).buckets, m, seat).Some?
    ensures i < |ops| && Histories.Bids(ref, ops[i], m, seat)
    ensures Histories.OwnerOf(Semantics.Replay(ref, ops).buckets, m, seat) == Some(ops[i].userId)
  {
    Histories.SoldIff(ref, ops, m, seat);
    var k :| 0 <= k < |ops| && Histories.Bids(ref, ops[k], m, seat);
    i := FirstBidExists(ref, ops, m, seat, k);
    Histories.OneWinner(ref, ops, m, seat, i);
  }

  // ---- The store -----------------------------------------------------------

  /**
   * The records of a run of invocations, with the phase each event was scheduled in. A decided reply counts as given,
   * printed yet or not; an invocation that died gave none.
   */
  function StoreRecords(calls: seq<FaasProtocol.Call>, phases: seq<string>, s: FaasProtocol.System): seq<Record>
    requires |phases| == |calls| == |s.procs|
  {
    seq(|calls|, i requires 0 <= i < |calls| =>
      Record(phases[i], calls[i].op, if FaasProtocol.Completed(s.procs[i]) then s.procs[i].reply else None))
  }

  function IndexOf(ids: seq<nat>, i: nat): (p: Option<nat>)
    ensures p.Some? <==> i in ids
    ensures p.Some? ==> p.value < |ids| && ids[p.value] == i
  {
    if ids == [] then None
    else if ids[|ids| - 1] == i then Some(|ids| - 1)
    else IndexOf(ids[..|ids| - 1], i)
  }

  function Places(ids: seq<nat>, n: nat): seq<Option<nat>> { seq(n, i requires 0 <= i < n => IndexOf(ids, i)) }

  /** Every run, whatever its mixture of paths and crashes, is explained by the lineage of the blob it leaves. */
  lemma {:induction false} StoreExplained(ref: Roster, calls: seq<FaasProtocol.Call>, phases: seq<string>,
                                          trace: seq<FaasProtocol.Action>)
    returns (serial: seq<Op>, place: seq<Option<nat>>)
    requires |phases| == |calls|
    ensures var s, lineage := FaasProtocol.Run(ref, calls, trace), FaasProtocol.AncestryOf(ref, calls, trace).blob;
            && FaasProtocol.InRange(calls, lineage)
            && serial == FaasProtocol.OpsOf(calls, lineage) && place == Places(lineage, |calls|)
            && FaasProtocol.Current(s) == Semantics.Replay(ref, serial)
            && Explains(ref, serial, StoreRecords(calls, phases, s), place)
  {
    var s := FaasProtocol.Run(ref, calls, trace);
    var lineage := FaasProtocol.Lineage(ref, calls, trace);
    serial, place := FaasProtocol.OpsOf(calls, lineage), Places(lineage, |calls|);
    ExplainedBy(ref, calls, phases, s, lineage);
  }

  lemma ExplainedBy(ref: Roster, calls: seq<FaasProtocol.Call>, phases: seq<string>, s: FaasProtocol.System,
                    ids: seq<nat>)
    requires |phases| == |calls| == |s.procs| && FaasProtocol.InRange(calls, ids) && Distinct(ids)
    requires FaasProtocol.RepliesMatch(ref, calls, s, ids)
    ensures Explains(ref, FaasProtocol.OpsOf(calls, ids), StoreRecords(calls, phases, s), Places(ids, |calls|))
  {
    var serial := FaasProtocol.OpsOf(calls, ids);
    forall p: nat | p < |ids| && FaasProtocol.Completed(s.procs[ids[p]])
      ensures s.procs[ids[p]].reply == Semantics.ReplyAt(ref, serial, p)
    {
      assert serial[..p] == FaasProtocol.OpsOf(calls, ids[..p]);
    }
  }

  /** No invocation that saved or committed died before answering. */
  ghost predicate SaversLive(s: FaasProtocol.System, saves: seq<nat>) {
    forall i :: i in saves ==> i < |s.procs| && !s.procs[i].Dead?
  }

  lemma IndexOfMember(ids: seq<nat>, p: nat)
    requires Distinct(ids) && p < |ids|
    ensures IndexOf(ids, ids[p]) == Some(p)
  {
  }

  lemma AllReportedBy(serial: seq<Op>, records: seq<Record>, ids: seq<nat>)
    requires |serial| == |ids| && Distinct(ids)
    requires forall p :: 0 <= p < |ids| ==> ids[p] < |records| && records[ids[p]].result.Some?
    ensures AllReported(serial, records, Places(ids, |records|))
  {
    var place := Places(ids, |records|);
    forall p: nat | p < |ids| ensures p in Reported(records, place) {
      IndexOfMember(ids, p);
      assert place[ids[p]] == Some(p) && records[ids[p]].result.Some?;
    }
  }

  /** Whoever saved and lives has a reply: what has none cannot save. */
  lemma SaverReplies(ref: Roster, calls: seq<FaasProtocol.Call>, trace: seq<FaasProtocol.Action>, i: nat)
    requires i in FaasProtocol.SaveOrder(ref, calls, trace)
    ensures i < |calls|
    ensures var p := FaasProtocol.Run(ref, calls, trace).procs[i];
            p.Dead? || (FaasProtocol.Completed(p) && p.reply.Some?)
  {
    FaasProtocol.SaversSaved(ref, calls, trace);
    var p := FaasProtocol.Run(ref, calls, trace).procs[i];
    if FaasProtocol.Completed(p) { FaasProtocol.RepliesAreTheirs(ref, calls, trace, i); }
    if Semantics.Aborts(calls[i].op) { FaasProtocol.PoisonIsContained(ref, calls, trace, i); }
  }

  /** With no saver dead, every member of the lineage is reported. */
  lemma StoreReported(ref: Roster, calls: seq<FaasProtocol.Call>, phases: seq<string>, trace: seq<FaasProtocol.Action>,
                      lineage: seq<nat>)
    requires |phases| == |calls| && FaasProtocol.InRange(calls, lineage)
    requires lineage == FaasProtocol.AncestryOf(ref, calls, trace).blob
    requires SaversLive(FaasProtocol.Run(ref, calls, trace), FaasProtocol.SaveOrder(ref, calls, trace))
    ensures AllReported(FaasProtocol.OpsOf(calls, lineage),
                        StoreRecords(calls, phases, FaasProtocol.Run(ref, calls, trace)), Places(lineage, |calls|))
  {
    var records := StoreRecords(calls, phases, FaasProtocol.Run(ref, calls, trace));
    var ids := FaasProtocol.Lineage(ref, calls, trace);
    Subsequences.SubsequenceElements(lineage, FaasProtocol.SaveOrder(ref, calls, trace));
    forall p | 0 <= p < |lineage| ensures records[lineage[p]].result.Some? {
      assert lineage[p] in FaasProtocol.SaveOrder(ref, calls, trace);
      SaverReplies(ref, calls, trace, lineage[p]);
    }
    AllReportedBy(FaasProtocol.OpsOf(calls, lineage), records, lineage);
  }

  /** With every call transactional, nothing is lost. */
  lemma StoreLosesNothing(ref: Roster, calls: seq<FaasProtocol.Call>, phases: seq<string>,
                          trace: seq<FaasProtocol.Action>)
    requires |phases| == |calls| && FaasProtocol.AllTransactional(calls)
    ensures NothingLost(StoreRecords(calls, phases, FaasProtocol.Run(ref, calls, trace)),
                        Places(FaasProtocol.AncestryOf(ref, calls, trace).blob, |calls|))
  {
    FaasProtocol.Serializable(ref, calls, trace);
    FaasProtocol.CommitsAccumulate(ref, calls, trace);
  }

  /** The books of the store, at any moment of any run: what the shuttle lacks is what was lost to stale saves. */
  lemma {:induction false} StoreBalance(ref: Roster, calls: seq<FaasProtocol.Call>, phases: seq<string>,
                                        trace: seq<FaasProtocol.Action>, id: string)
    requires |phases| == |calls|
    ensures var s, lineage := FaasProtocol.Run(ref, calls, trace), FaasProtocol.AncestryOf(ref, calls, trace).blob;
            var records, place := StoreRecords(calls, phases, s), Places(lineage, |calls|);
            && FaasProtocol.InRange(calls, lineage)
            && Boardings(records, id) + Unreported(ref, FaasProtocol.OpsOf(calls, lineage), records, place, id) ==
               Histories.PassengersOf(FaasProtocol.Current(s).buckets, id) + Lost(records, place, id)
            && (FaasProtocol.AllTransactional(calls) ==> Lost(records, place, id) == 0)
  {
    var serial, place := StoreExplained(ref, calls, phases, trace);
    var records := StoreRecords(calls, phases, FaasProtocol.Run(ref, calls, trace));
    BoardingBalance(ref, serial, records, place, id);
    if FaasProtocol.AllTransactional(calls) {
      StoreLosesNothing(ref, calls, phases, trace);
      LostNothing(records, place, id);
    }
  }

  /**
   * The shuttle tally over the store, at any moment of any run in which no saver died. On any mixture of paths no
   * stored blob shows more aboard than were told they boarded; with transactions it shows no lost update.
   */
  lemma {:induction false} StoreShuttleVerdict(ref: Roster, calls: seq<FaasProtocol.Call>, phases: seq<string>,
                                               trace: seq<FaasProtocol.Action>, id: string)
    requires |phases| == |calls|
    requires SaversLive(FaasProtocol.Run(ref, calls, trace), FaasProtocol.SaveOrder(ref, calls, trace))
    ensures var s := FaasProtocol.Run(ref, calls, trace);
            var records, b := StoreRecords(calls, phases, s), FaasProtocol.Current(s).buckets;
            && (SeatsNonNegative(records) ==> Histories.PassengersOf(b, id) <= Boardings(records, id))
            && (FaasProtocol.AllTransactional(calls) ==> Histories.PassengersOf(b, id) == Boardings(records, id))
  {
    var serial, place := StoreExplained(ref, calls, phases, trace);
    StoreReported(ref, calls, phases, trace, FaasProtocol.AncestryOf(ref, calls, trace).blob);
    if FaasProtocol.AllTransactional(calls) { StoreLosesNothing(ref, calls, phases, trace); }
    PassengerVerdict(ref, serial, StoreRecords(calls, phases, FaasProtocol.Run(ref, calls, trace)), place, id);
  }

  /** No blob ever stored, on any path, whoever still runs or died, overloads a shuttle of non-negative capacity. */
  lemma {:induction false} StoreCapacity(ref: Roster, calls: seq<FaasProtocol.Call>, trace: seq<FaasProtocol.Action>,
                                         id: string)
    ensures var b := FaasProtocol.Current(FaasProtocol.Run(ref, calls, trace)).buckets;
            CapacityIn(b, id) >= 0 ==> Histories.PassengersOf(b, id) <= CapacityIn(b, id)
  {
    var lineage := FaasProtocol.Lineage(ref, calls, trace);
    CapacityVerdict(ref, FaasProtocol.OpsOf(calls, lineage), id);
  }

  /** Over transactions, the seat tally's double sales are IDs sold in two matches: no seat of a match is sold twice. */
  lemma {:induction false} StoreSeatVerdict(ref: Roster, calls: seq<FaasProtocol.Call>, phases: seq<string>,
                                            trace: seq<FaasProtocol.Action>, seat: string)
    requires |phases| == |calls| && FaasProtocol.AllTransactional(calls)
    ensures var records := StoreRecords(calls, phases, FaasProtocol.Run(ref, calls, trace));
            SoldTwice(records, seat) <==> SoldInTwoMatches(records, seat)
  {
    var serial, place := StoreExplained(ref, calls, phases, trace);
    StoreLosesNothing(ref, calls, phases, trace);
    DoubleSaleVerdict(ref, serial, StoreRecords(calls, phases, FaasProtocol.Run(ref, calls, trace)), place, seat);
  }

  function Requests(calls: seq<FaasProtocol.Call>): seq<Op> {
    seq(|calls|, i requires 0 <= i < |calls| => calls[i].op)
  }

  /** So with no seat ID validly asked for in two matches the tally counts no double sale, in any run. */
  lemma {:induction false} StoreNoDoubleSale(ref: Roster, calls: seq<FaasProtocol.Call>, phases: seq<string>,
                                             trace: seq<FaasProtocol.Action>, seats: seq<string>)
    requires |phases| == |calls| && FaasProtocol.AllTransactional(calls)
    requires forall seat :: !AskedInTwoMatches(ref, Requests(calls), phases, seat)
    requires Covers(StoreRecords(calls, phases, FaasProtocol.Run(ref, calls, trace)), seats)
    ensures Doubles(StoreRecords(calls, phases, FaasProtocol.Run(ref, calls, trace)), seats) == 0
  {
    var serial, place := StoreExplained(ref, calls, phases, trace);
    StoreLosesNothing(ref, calls, phases, trace);
    NoDoubleSale(ref, serial, StoreRecords(calls, phases, FaasProtocol.Run(ref, calls, trace)), place, Requests(calls),
                 phases, seats);
  }

  /** Every valid request for the seat ID was made in the rush and has its reply. */
  ghost predicate StoreAnswered(ref: Roster, calls: seq<FaasProtocol.Call>, phases: seq<string>, s: FaasProtocol.System,
                                seat: string)
    requires |phases| == |calls| == |s.procs|
  {
    && RushOnly(ref, Requests(calls), phases, seat)
    && forall k :: 0 <= k < |calls| && Asks(ref, Requests(calls)[k], seat) ==> FaasProtocol.Completed(s.procs[k])
  }

  /**
   * Exactly when the tally over transactions cries double sale: when rostered users asked for that seat ID in two
   * matches.
   */
  lemma {:induction false} StoreDoubleSaleIff(ref: Roster, calls: seq<FaasProtocol.Call>, phases: seq<string>,
                                              trace: seq<FaasProtocol.Action>, seat: string)
    requires |phases| == |calls| && FaasProtocol.AllTransactional(calls)
    requires SaversLive(FaasProtocol.Run(ref, calls, trace), FaasProtocol.SaveOrder(ref, calls, trace))
    requires StoreAnswered(ref, calls, phases, FaasProtocol.Run(ref, calls, trace), seat)
    ensures SoldTwice(StoreRecords(calls, phases, FaasProtocol.Run(ref, calls, trace)), seat) <==>
            AskedInTwoMatches(ref, Requests(calls), phases, seat)
  {
    var records := StoreRecords(calls, phases, FaasProtocol.Run(ref, calls, trace));
    var serial, place := StoreExplained(ref, calls, phases, trace);
    StoreReported(ref, calls, phases, trace, FaasProtocol.AncestryOf(ref, calls, trace).blob);
    StoreLosesNothing(ref, calls, phases, trace);
    AskersPlaced(ref, calls, phases, trace, seat);
    DoubleSaleIff(ref, serial, records, place, Requests(calls), phases, seat);
  }

  lemma AskersPlaced(ref: Roster, calls: seq<FaasProtocol.Call>, phases: seq<string>, trace: seq<FaasProtocol.Action>,
                     seat: string)
    requires |phases| == |calls| && FaasProtocol.AllTransactional(calls)
    requires StoreAnswered(ref, calls, phases, FaasProtocol.Run(ref, calls, trace), seat)
    ensures var place := Places(FaasProtocol.AncestryOf(ref, calls, trace).blob, |calls|);
            forall k :: 0 <= k < |calls| && Asks(ref, Requests(calls)[k], seat) ==> place[k].Some?
  {
    FaasProtocol.CommitsAccumulate(ref, calls, trace);
    FaasProtocol.SaversSaved(ref, calls, trace);
  }

  /** So `double_sold` is 0 exactly when no seat ID was asked for in two matches. */
  lemma {:induction false} StoreDoublesIff(ref: Roster, calls: seq<FaasProtocol.Call>, phases: seq<string>,
                                           trace: seq<FaasProtocol.Action>, seats: seq<string>)
    requires |phases| == |calls| && FaasProtocol.AllTransactional(calls)
    requires SaversLive(FaasProtocol.Run(ref, calls, trace), FaasProtocol.SaveOrder(ref, calls, trace))
    requires forall seat :: StoreAnswered(ref, calls, phases, FaasProtocol.Run(ref, calls, trace), seat)
    requires Covers(StoreRecords(calls, phases, FaasProtocol.Run(ref, calls, trace)), seats)
    ensures Doubles(StoreRecords(calls, phases, FaasProtocol.Run(ref, calls, trace)), seats) == 0 <==>
            forall seat :: !AskedInTwoMatches(ref, Requests(calls), phases, seat)
  {
    var records := StoreRecords(calls, phases, FaasProtocol.Run(ref, calls, trace));
    forall seat ensures SoldTwice(records, seat) <==> AskedInTwoMatches(ref, Requests(calls), phases, seat) {
      StoreDoubleSaleIff(ref, calls, phases, trace, seat);
    }
    NoDoubleSaleIff(records, seats);
  }

  /**
   * Over transactions, while no committer has died, a seat some completed invocation validly asked for has one
   * accepted booking: that of a committer, whose user owns the seat.
   */
  lemma {:induction false} StoreOneWinner(ref: Roster, calls: seq<FaasProtocol.Call>, phases: seq<string>,
                                          trace: seq<FaasProtocol.Action>, k: nat, m: string,
                                          seat: string) returns (w: nat)
    requires |phases| == |calls| && FaasProtocol.AllTransactional(calls)
    requires SaversLive(FaasProtocol.Run(ref, calls, trace), FaasProtocol.SaveOrder(ref, calls, trace))
    requires k < |calls| && Histories.Bids(ref, calls[k].op, m, seat)
    requires FaasProtocol.Completed(FaasProtocol.Run(ref, calls, trace).procs[k])
    ensures var s := FaasProtocol.Run(ref, calls, trace);
            var records := StoreRecords(calls, phases, s);
            && w < |calls| && w in FaasProtocol.SaveOrder(ref, calls, trace) && SoldFor(records[w], m, seat)
            && Histories.OwnerOf(FaasProtocol.Current(s).buckets, m, seat) == Some(calls[w].op.userId)
            && forall j :: 0 <= j < |calls| && SoldFor(records[j], m, seat) ==> j == w
  {
    var s := FaasProtocol.Run(ref, calls, trace);
    var serial, place := StoreExplained(ref, calls, phases, trace);
    StoreReported(ref, calls, phases, trace, FaasProtocol.AncestryOf(ref, calls, trace).blob);
    StoreLosesNothing(ref, calls, phases, trace);
    FaasProtocol.Serializable(ref, calls, trace);
    FaasProtocol.CommitsAccumulate(ref, calls, trace);
    w := OneWinnerPerSeat(ref, serial, StoreRecords(calls, phases, s), place, k, m, seat);
    assert place[w].Some?;
  }

  /** And it stays that user's: over transactions no continuation of a run, crashes included, changes an owner. */
  lemma {:induction false} StoreOwnerIsPermanent(ref: Roster, calls: seq<FaasProtocol.Call>,
                                                 trace: seq<FaasProtocol.Action>, more: seq<FaasProtocol.Action>,
                                                 m: string, seat: string)
    requires FaasProtocol.AllTransactional(calls)
    requires Histories.OwnerOf(FaasProtocol.Current(FaasProtocol.Run(ref, calls, trace)).buckets, m, seat).Some?
    ensures Histories.OwnerOf(FaasProtocol.Current(FaasProtocol.Run(ref, calls, trace + more)).buckets, m, seat) ==
            Histories.OwnerOf(FaasProtocol.Current(FaasProtocol.Run(ref, calls, trace)).buckets, m, seat)
  {
    FaasProtocol.StoredIsCommitted(ref, calls, trace);
    FaasProtocol.StoredIsCommitted(ref, calls, trace + more);
    FaasProtocol.SaveOrderGrows(ref, calls, trace, more);
    var before, after := FaasProtocol.SaveOrder(ref, calls, trace), FaasProtocol.SaveOrder(ref, calls, trace + more);
    OwnerOutlasts(ref, calls, before, after, m, seat);
  }

  lemma OwnerOutlasts(ref: Roster, calls: seq<FaasProtocol.Call>, before: seq<nat>, after: seq<nat>, m: string,
                      seat: string)
    requires FaasProtocol.InRange(calls, after) && before <= after && FaasProtocol.InRange(calls, before)
    requires Histories.OwnerOf(FaasProtocol.Sequential(ref, calls, before).buckets, m, seat).Some?
    ensures Histories.OwnerOf(FaasProtocol.Sequential(ref, calls, after).buckets, m, seat) ==
            Histories.OwnerOf(FaasProtocol.Sequential(ref, calls, before).buckets, m, seat)
  {
    var done, all := FaasProtocol.OpsOf(calls, before), FaasProtocol.OpsOf(calls, after);
    assert all == done + all[|done|..];
    Histories.OwnerIsPermanent(ref, done, all[|done|..], m, seat);
  }

  /**
   * Attribution. Whatever the calls, their paths and the crashes, the owner of a stored seat is the user of a call
   * that saved a booking of exactly that seat of that match.
   */
  lemma {:induction false} StoreOwnerBid(ref: Roster, calls: seq<FaasProtocol.Call>, trace: seq<FaasProtocol.Action>,
                                         m: string, seat: string) returns (i: nat)
    requires Histories.OwnerOf(FaasProtocol.Current(FaasProtocol.Run(ref, calls, trace)).buckets, m, seat).Some?
    ensures i in FaasProtocol.SaveOrder(ref, calls, trace) && i < |calls| && Histories.Bids(ref, calls[i].op, m, seat)
    ensures Histories.OwnerOf(FaasProtocol.Current(FaasProtocol.Run(ref, calls, trace)).buckets, m, seat) ==
            Some(calls[i].op.userId)
  {
    var lineage := FaasProtocol.Lineage(ref, calls, trace);
    var p := OwnerIsABidder(ref, FaasProtocol.OpsOf(calls, lineage), m, seat);
    i := lineage[p];
    Subsequences.SubsequenceElements(lineage, FaasProtocol.SaveOrder(ref, calls, trace));
  }

  /** Call i books bookings[i], and no seat is booked twice. */
  ghost predicate BookOnce(calls: seq<FaasProtocol.Call>, m: string, bookings: seq<(string, string)>) {
    && |calls| == |bookings|
    && (forall i :: 0 <= i < |calls| ==> calls[i].op == BookTicket(m, bookings[i].0, bookings[i].1))
    && (forall i, j :: 0 <= i < j < |bookings| ==> bookings[i].0 != bookings[j].0)
  }

  /**
   * The leak check finds nothing in the store: with one booking a seat, every stored owner is the user who booked it.
   */
  lemma {:induction false} StoreNeverMisattributes(ref: Roster, calls: seq<FaasProtocol.Call>,
                                                   trace: seq<FaasProtocol.Action>, m: string,
                                                   bookings: seq<(string, string)>)
    requires BookOnce(calls, m, bookings)
    ensures var seats := Semantics.MatchOf(FaasProtocol.Current(FaasProtocol.Run(ref, calls, trace)).buckets, m).seats;
            Wrong(seats, bookings) == 0
  {
    var b := FaasProtocol.Current(FaasProtocol.Run(ref, calls, trace)).buckets;
    var seats := Semantics.MatchOf(b, m).seats;
    forall k | 0 <= k < |bookings| ensures !Misplaced(seats, bookings[k]) {
      if bookings[k].0 in seats {
        assert Histories.OwnerOf(b, m, bookings[k].0) == Some(seats[bookings[k].0]);
        var i := StoreOwnerBid(ref, calls, trace, m, bookings[k].0);
        assert calls[i].op == BookTicket(m, bookings[i].0, bookings[i].1);
      }
    }
    NoneWrongIff(seats, bookings);
  }

  /** The venue protocol holds of every blob ever stored, with the lineage for its history. */
  lemma {:induction false} StoreVenues(ref: Roster, calls: seq<FaasProtocol.Call>, trace: seq<FaasProtocol.Action>,
                                       v: string)
    ensures var lineage := FaasProtocol.AncestryOf(ref, calls, trace).blob;
            && FaasProtocol.InRange(calls, lineage)
            && var trail := Histories.Trail(ref, FaasProtocol.OpsOf(calls, lineage), v);
               && Histories.Alternates(trail) && (v !in ref.venues ==> trail == [])
               && Semantics.VenueOf(FaasProtocol.Current(FaasProtocol.Run(ref, calls, trace)).buckets, v)
                  == Histories.VenueAfter(trail)
  {
    var lineage := FaasProtocol.Lineage(ref, calls, trace);
    Histories.VenueProtocol(ref, FaasProtocol.OpsOf(calls, lineage), v);
  }

  /** So no stored blob ever has an unknown venue occupied. */
  lemma {:induction false} StoreUnknownVenue(ref: Roster, calls: seq<FaasProtocol.Call>,
                                             trace: seq<FaasProtocol.Action>, v: string)
    requires v !in ref.venues
    ensures Semantics.VenueOf(FaasProtocol.Current(FaasProtocol.Run(ref, calls, trace)).buckets, v).status == Free
  {
    StoreVenues(ref, calls, trace, v);
  }

  // ---- The locked monolith -------------------------------------------------

  function ServerRecords(ops: seq<Op>, phases: seq<string>, p: ThreadedServer.Process): seq<Record>
    requires |phases| == |ops| == |p.threads|
  {
    seq(|ops|, i requires 0 <= i < |ops| =>
      Record(phases[i], ops[i],
             if p.threads[i].Left? && p.threads[i].pc.Return? then Some(p.threads[i].pc.reply) else None))
  }

  /** Behind the lock, every run is explained by the order in which requests left. */
  lemma {:induction false} ServerExplained(ref: Roster, ops: seq<Op>, phases: seq<string>,
                                           trace: seq<ThreadedServer.Action>)
    requires |phases| == |ops|
    ensures var p, order := ThreadedServer.Run(ref, true, ops, trace), ThreadedServer.LeaveOrder(ref, ops, trace);
            && ThreadedServer.InRange(ops, order) && Distinct(order)
            && Explains(ref, ThreadedServer.OpsOf(ops, order), ServerRecords(ops, phases, p), Places(order, |ops|))
  {
    ThreadedServer.Linearizable(ref, ops, trace);
    var p, order := ThreadedServer.Run(ref, true, ops, trace), ThreadedServer.LeaveOrder(ref, ops, trace);
    var serial, place, records := ThreadedServer.OpsOf(ops, order), Places(order, |ops|), ServerRecords(ops, phases, p);
    forall k | 0 <= k < |records| && place[k].Some?
      ensures records[k].result == Semantics.ReplyAt(ref, serial, place[k].value)
    {
      assert ThreadedServer.Served(ref, ops, p.threads[order[place[k].value]], order, place[k].value);
    }
  }

  lemma ServerComplete(ref: Roster, ops: seq<Op>, phases: seq<string>, trace: seq<ThreadedServer.Action>)
    requires |phases| == |ops|
    ensures var p, order := ThreadedServer.Run(ref, true, ops, trace), ThreadedServer.LeaveOrder(ref, ops, trace);
            var records, place := ServerRecords(ops, phases, p), Places(order, |ops|);
            && ThreadedServer.InRange(ops, order)
            && AllReported(ThreadedServer.OpsOf(ops, order), records, place) && NothingLost(records, place)
  {
    ThreadedServer.Linearizable(ref, ops, trace);
    var p, order := ThreadedServer.Run(ref, true, ops, trace), ThreadedServer.LeaveOrder(ref, ops, trace);
    forall q | 0 <= q < |order| ensures p.threads[order[q]].Left? && p.threads[order[q]].pc.Return? {
      assert ThreadedServer.Served(ref, ops, p.threads[order[q]], order, q);
    }
    AllReportedBy(ThreadedServer.OpsOf(ops, order), ServerRecords(ops, phases, p), order);
  }

  lemma QuietBuckets(ref: Roster, ops: seq<Op>, trace: seq<ThreadedServer.Action>)
    requires ThreadedServer.Run(ref, true, ops, trace).lock.None?
    ensures var order := ThreadedServer.LeaveOrder(ref, ops, trace);
            && ThreadedServer.InRange(ops, order)
            && ThreadedServer.Run(ref, true, ops, trace).mem.state.buckets ==
               Semantics.Replay(ref, ThreadedServer.OpsOf(ops, order)).buckets
  {
    ThreadedServer.Linearizable(ref, ops, trace);
    Monolith.SameBuckets(ref, ThreadedServer.OpsOf(ops, ThreadedServer.LeaveOrder(ref, ops, trace)));
  }

  /**
   * The shuttle tally over the locked monolith, read while the lock is free: never a lost update, never over a
   * capacity that is not negative.
   */
  lemma {:induction false} ServerShuttleVerdict(ref: Roster, ops: seq<Op>, phases: seq<string>,
                                                trace: seq<ThreadedServer.Action>, id: string)
    requires |phases| == |ops| && ThreadedServer.Run(ref, true, ops, trace).lock.None?
    ensures var p := ThreadedServer.Run(ref, true, ops, trace);
            var records, b := ServerRecords(ops, phases, p), p.mem.state.buckets;
            && Histories.PassengersOf(b, id) == Boardings(records, id)
            && (CapacityIn(b, id) >= 0 ==> Histories.PassengersOf(b, id) <= CapacityIn(b, id))
  {
    var p, order := ThreadedServer.Run(ref, true, ops, trace), ThreadedServer.LeaveOrder(ref, ops, trace);
    ServerExplained(ref, ops, phases, trace);
    ServerComplete(ref, ops, phases, trace);
    QuietBuckets(ref, ops, trace);
    PassengerVerdict(ref, ThreadedServer.OpsOf(ops, order), ServerRecords(ops, phases, p), Places(order, |ops|), id);
    CapacityVerdict(ref, ThreadedServer.OpsOf(ops, order), id);
  }

  /** Behind the lock, too, double sales in the tally are IDs sold in two matches. */
  lemma {:induction false} ServerSeatVerdict(ref: Roster, ops: seq<Op>, phases: seq<string>,
                                             trace: seq<ThreadedServer.Action>, seat: string)
    requires |phases| == |ops|
    ensures var records := ServerRecords(ops, phases, ThreadedServer.Run(ref, true, ops, trace));
            SoldTwice(records, seat) <==> SoldInTwoMatches(records, seat)
  {
    var p, order := ThreadedServer.Run(ref, true, ops, trace), ThreadedServer.LeaveOrder(ref, ops, trace);
    ServerExplained(ref, ops, phases, trace);
    ServerComplete(ref, ops, phases, trace);
    DoubleSaleVerdict(ref, ThreadedServer.OpsOf(ops, order), ServerRecords(ops, phases, p), Places(order, |ops|), seat);
  }

  /** And with no seat ID validly asked for in two matches there is none. */
  lemma {:induction false} ServerNoDoubleSale(ref: Roster, ops: seq<Op>, phases: seq<string>,
                                              trace: seq<ThreadedServer.Action>, seats: seq<string>)
    requires |phases| == |ops| && forall seat :: !AskedInTwoMatches(ref, ops, phases, seat)
    requires Covers(ServerRecords(ops, phases, ThreadedServer.Run(ref, true, ops, trace)), seats)
    ensures Doubles(ServerRecords(ops, phases, ThreadedServer.Run(ref, true, ops, trace)), seats) == 0
  {
    var p, order := ThreadedServer.Run(ref, true, ops, trace), ThreadedServer.LeaveOrder(ref, ops, trace);
    ServerExplained(ref, ops, phases, trace);
    ServerComplete(ref, ops, phases, trace);
    NoDoubleSale(ref, ThreadedServer.OpsOf(ops, order), ServerRecords(ops, phases, p), Places(order, |ops|), ops,
                 phases, seats);
  }

  ghost predicate ServerAnswered(ref: Roster, ops: seq<Op>, phases: seq<string>, p: ThreadedServer.Process,
                                 seat: string)
    requires |phases| == |ops| == |p.threads|
  {
    && RushOnly(ref, ops, phases, seat)
    && forall k :: 0 <= k < |ops| && Asks(ref, ops[k], seat) ==> p.threads[k].Left?
  }

  /** The exact condition is the one of the store. */
  lemma {:induction false} ServerDoubleSaleIff(ref: Roster, ops: seq<Op>, phases: seq<string>,
                                               trace: seq<ThreadedServer.Action>, seat: string)
    requires |phases| == |ops| && ServerAnswered(ref, ops, phases, ThreadedServer.Run(ref, true, ops, trace), seat)
    ensures SoldTwice(ServerRecords(ops, phases, ThreadedServer.Run(ref, true, ops, trace)), seat) <==>
            AskedInTwoMatches(ref, ops, phases, seat)
  {
    var p, order := ThreadedServer.Run(ref, true, ops, trace), ThreadedServer.LeaveOrder(ref, ops, trace);
    ServerExplained(ref, ops, phases, trace);
    ServerComplete(ref, ops, phases, trace);
    ThreadedServer.Linearizable(ref, ops, trace);
    DoubleSaleIff(ref, ThreadedServer.OpsOf(ops, order), ServerRecords(ops, phases, p), Places(order, |ops|), ops,
                  phases, seat);
  }

  lemma {:induction false} ServerDoublesIff(ref: Roster, ops: seq<Op>, phases: seq<string>,
                                            trace: seq<ThreadedServer.Action>, seats: seq<string>)
    requires |phases| == |ops|
    requires forall seat :: ServerAnswered(ref, ops, phases, ThreadedServer.Run(ref, true, ops, trace), seat)
    requires Covers(ServerRecords(ops, phases, ThreadedServer.Run(ref, true, ops, trace)), seats)
    ensures Doubles(ServerRecords(ops, phases, ThreadedServer.Run(ref, true, ops, trace)), seats) == 0 <==>
            forall seat :: !AskedInTwoMatches(ref, ops, phases, seat)
  {
    var records := ServerRecords(ops, phases, ThreadedServer.Run(ref, true, ops, trace));
    forall seat ensures SoldTwice(records, seat) <==> AskedInTwoMatches(ref, ops, phases, seat) {
      ServerDoubleSaleIff(ref, ops, phases, trace, seat);
    }
    NoDoubleSaleIff(records, seats);
  }

  /**
   * At any moment of a locked run a seat somebody validly asked for and was answered about has one accepted booking,
   * whose user owns it.
   */
  lemma {:induction false} ServerOneWinner(ref: Roster, ops: seq<Op>, phases: seq<string>,
                                           trace: seq<ThreadedServer.Action>, k: nat, m: string,
                                           seat: string) returns (w: nat)
    requires |phases| == |ops| && k < |ops| && Histories.Bids(ref, ops[k], m, seat)
    requires ThreadedServer.Run(ref, true, ops, trace).threads[k].Left?
    ensures var p := ThreadedServer.Run(ref, true, ops, trace);
            var records := ServerRecords(ops, phases, p);
            && w < |ops| && SoldFor(records[w], m, seat)
            && Histories.OwnerOf(p.mem.state.buckets, m, seat) == Some(ops[w].userId)
            && forall j :: 0 <= j < |ops| && SoldFor(records[j], m, seat) ==> j == w
  {
    var p, order := ThreadedServer.Run(ref, true, ops, trace), ThreadedServer.LeaveOrder(ref, ops, trace);
    ServerExplained(ref, ops, phases, trace);
    ServerComplete(ref, ops, phases, trace);
    ThreadedServer.Linearizable(ref, ops, trace);
    w := OneWinnerPerSeat(ref, ThreadedServer.OpsOf(ops, order), ServerRecords(ops, phases, p), Places(order, |ops|),
                          k, m, seat);
    Monolith.SameBuckets(ref, ThreadedServer.OpsOf(ops, order));
    ThreadedServer.OwnerStillThere(ref, ops, trace, m, seat);
  }

  /** The venue protocol holds of the locked monolith whenever the lock is free. */
  lemma {:induction false} ServerVenues(ref: Roster, ops: seq<Op>, trace: seq<ThreadedServer.Action>, v: string)
    requires ThreadedServer.Run(ref, true, ops, trace).lock.None?
    ensures var order := ThreadedServer.LeaveOrder(ref, ops, trace);
            && ThreadedServer.InRange(ops, order)
            && var trail := Histories.Trail(ref, ThreadedServer.OpsOf(ops, order), v);
               && Histories.Alternates(trail) && (v !in ref.venues ==> trail == [])
               && Semantics.VenueOf(ThreadedServer.Run(ref, true, ops, trace).mem.state.buckets, v)
                  == Histories.VenueAfter(trail)
  {
    QuietBuckets(ref, ops, trace);
    Histories.VenueProtocol(ref, ThreadedServer.OpsOf(ops, ThreadedServer.LeaveOrder(ref, ops, trace)), v);
  }

  /** Nor has the monolith ever, locked or not. */
  lemma {:induction false} ServerUnknownVenue(ref: Roster, locked: bool, ops: seq<Op>,
                                              trace: seq<ThreadedServer.Action>, v: string)
    requires v !in ref.venues
    ensures Semantics.VenueOf(ThreadedServer.Run(ref, locked, ops, trace).mem.state.buckets, v).status == Free
  {
    ThreadedServer.UnknownVenueNeverFiled(ref, locked, ops, trace, v);
  }

  // ---- Attribution in the monolith, locked or not --------------------------

  /** Request i books bookings[i] in match m, and no other request books a seat of that match booked before it. */
  ghost predicate BooksSeats(ops: seq<Op>, m: string, bookings: seq<(string, string)>) {
    && |bookings| <= |ops|
    && (forall i :: 0 <= i < |bookings| ==> ops[i] == BookTicket(m, bookings[i].0, bookings[i].1))
    && (forall i, j :: 0 <= i < j < |ops| && i < |bookings| ==> !SeatOwners.Books(ops[j], m, bookings[i].0))
  }

  /** Booking k has written its seat, and the last request to have entered when it left its window acted for another. */
  ghost predicate Astray(ref: Roster, locked: bool, ops: seq<Op>, trace: seq<ThreadedServer.Action>, k: nat)
    requires k < |ops| && ops[k].BookTicket?
  {
    var taken := SeatOwners.TakenBy(ref, locked, ops, trace, k);
    && ThreadedServer.Wrote(ThreadedServer.PcOf(ThreadedServer.Run(ref, locked, ops, trace).threads[k]))
    && taken.Some? && taken.value < |ops| && Monolith.ActorOf(ops[taken.value]) != ops[k].userId
  }

  lemma OnlyWriter(ref: Roster, locked: bool, ops: seq<Op>, trace: seq<ThreadedServer.Action>, m: string,
                   bookings: seq<(string, string)>, k: nat, i: nat)
    requires BooksSeats(ops, m, bookings) && k < |bookings|
    requires i in SeatOwners.Writers(ref, locked, ops, trace, m, bookings[k].0)
    ensures i == k
  {
    SeatOwners.WriterKnown(ref, locked, ops, trace, m, bookings[k].0, i);
  }

  /** In every run the stored owner of a booked seat is wrong exactly when its booking went astray. */
  lemma {:induction false} MisplacedIff(ref: Roster, locked: bool, ops: seq<Op>, trace: seq<ThreadedServer.Action>,
                                        m: string, bookings: seq<(string, string)>, k: nat)
    requires BooksSeats(ops, m, bookings) && k < |bookings|
    ensures var seats := Semantics.MatchOf(ThreadedServer.Run(ref, locked, ops, trace).mem.state.buckets, m).seats;
            Misplaced(seats, bookings[k]) <==> Astray(ref, locked, ops, trace, k)
  {
    var seat := bookings[k].0;
    var b := ThreadedServer.Run(ref, locked, ops, trace).mem.state.buckets;
    SeatOwners.StoredOwner(ref, locked, ops, trace, m, seat);
    SeatOwners.WritersWrote(ref, locked, ops, trace, m, seat, k);
    var writers := SeatOwners.Writers(ref, locked, ops, trace, m, seat);
    if writers != [] {
      OnlyWriter(ref, locked, ops, trace, m, bookings, k, SeatOwners.LastWriter(ref, locked, ops, trace, m, seat));
    }
    assert Histories.OwnerOf(b, m, seat) ==
           var seats := Semantics.MatchOf(b, m).seats; if seat in seats then Some(seats[seat]) else None;
  }

  ghost function AstrayCount(ref: Roster, locked: bool, ops: seq<Op>, trace: seq<ThreadedServer.Action>, n: nat): nat
    requires n <= |ops| && forall k :: 0 <= k < n ==> ops[k].BookTicket?
  {
    if n == 0 then 0
    else
      AstrayCount(ref, locked, ops, trace, n - 1) + (if Astray(ref, locked, ops, trace, n - 1) then 1 else 0)
  }

  /** The leak check counts exactly the bookings that went astray. */
  lemma {:induction false} LeakCount(ref: Roster, locked: bool, ops: seq<Op>, trace: seq<ThreadedServer.Action>,
                                     m: string, bookings: seq<(string, string)>)
    requires BooksSeats(ops, m, bookings)
    ensures var seats := Semantics.MatchOf(ThreadedServer.Run(ref, locked, ops, trace).mem.state.buckets, m).seats;
            Wrong(seats, bookings) == AstrayCount(ref, locked, ops, trace, |bookings|)
  {
    var seats := Semantics.MatchOf(ThreadedServer.Run(ref, locked, ops, trace).mem.state.buckets, m).seats;
    WrongUpTo(ref, locked, ops, trace, m, bookings, seats, |bookings|);
    assert bookings[..|bookings|] == bookings;
  }

  lemma {:induction false} WrongUpTo(ref: Roster, locked: bool, ops: seq<Op>, trace: seq<ThreadedServer.Action>,
                                     m: string, bookings: seq<(string, string)>, seats: map<string, string>, n: nat)
    requires BooksSeats(ops, m, bookings) && n <= |bookings|
    requires seats == Semantics.MatchOf(ThreadedServer.Run(ref, locked, ops, trace).mem.state.buckets, m).seats
    ensures Wrong(seats, bookings[..n]) == AstrayCount(ref, locked, ops, trace, n)
  {
    if n > 0 {
      WrongUpTo(ref, locked, ops, trace, m, bookings, seats, n - 1);
      MisplacedIff(ref, locked, ops, trace, m, bookings, n - 1);
      assert bookings[..n][..n - 1] == bookings[..n - 1];
    }
  }

  /** Behind the lock it finds none. */
  lemma {:induction false} ServerNeverMisattributes(ref: Roster, ops: seq<Op>, trace: seq<ThreadedServer.Action>,
                                                    m: string, bookings: seq<(string, string)>)
    requires BooksSeats(ops, m, bookings)
    ensures var seats := Semantics.MatchOf(ThreadedServer.Run(ref, true, ops, trace).mem.state.buckets, m).seats;
            Wrong(seats, bookings) == 0
  {
    var seats := Semantics.MatchOf(ThreadedServer.Run(ref, true, ops, trace).mem.state.buckets, m).seats;
    forall k | 0 <= k < |bookings| ensures !Misplaced(seats, bookings[k]) {
      MisplacedIff(ref, true, ops, trace, m, bookings, k);
      if SeatOwners.TakenBy(ref, true, ops, trace, k).Some? {
        SeatOwners.LockedTakesItself(ref, ops, trace, k);
        SeatOwners.TakersAreRostered(ref, true, ops, trace, k);
      }
    }
    NoneWrongIff(seats, bookings);
  }
}
