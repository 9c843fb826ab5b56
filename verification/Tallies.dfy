/** The benchmark's correctness checkers: loops over the per-event records, and what their verdicts mean. */
module Tallies {
  import opened Domain
  import Histories

  /** One event's record; a call that raised has no result. */
  datatype Record = Record(phase: string, op: Op, result: Option<Result>)

  datatype SeatTally = SeatTally(attempts: nat, successes: nat, distinctSeats: nat, doubleSold: nat)

  datatype ShuttleTally = ShuttleTally(boardings: int, finalPassengers: int, capacity: int,
                                       lostUpdate: bool, overCapacity: bool)

  const RUSH := "ticket_rush_spike"
  const HOTEL := "shuttle_hotel"
  const HOTEL_CAPACITY := 50

  /** The places of a sequence where p holds. */
  ghost function Where<T>(s: seq<T>, p: T -> bool): set<nat> { set k: nat | k < |s| && p(s[k]) }

  lemma OneMoreWhere<T>(s: seq<T>, p: T -> bool)
    requires s != []
    ensures |Where(s, p)| == |Where(s[..|s| - 1], p)| + (if p(s[|s| - 1]) then 1 else 0)
  {
    var n := |s| - 1;
    assert Where(s, p) == Where(s[..n], p) + (if p(s[n]) then {n} else {});
  }

  // ---- The ticket rush -----------------------------------------------------

  predicate Sale(r: Record) { r.phase == RUSH && IsOk(r.result) }
  predicate SeatSale(r: Record, seat: string) { Sale(r) && r.op.BookTicket? && r.op.seatId == seat }

  function RushCount(records: seq<Record>): nat {
    if records == [] then 0
    else RushCount(records[..|records| - 1]) + (if records[|records| - 1].phase == RUSH then 1 else 0)
  }

  function SaleCount(records: seq<Record>): nat {
    if records == [] then 0
    else SaleCount(records[..|records| - 1]) + (if Sale(records[|records| - 1]) then 1 else 0)
  }

  /** The counts in plain terms: requests of the rush, and those of them that were granted. */
  lemma {:induction false} RushNumbers(records: seq<Record>)
    ensures RushCount(records) == |Where(records, (r: Record) => r.phase == "ticket_rush_spike")|
    ensures SaleCount(records) ==
            |Where(records, (r: Record) => r.phase == "ticket_rush_spike" && r.result.Some? && r.result.value.ok)|
  {
    if records != [] {
      RushNumbers(records[..|records| - 1]);
      OneMoreWhere(records, (r: Record) => r.phase == "ticket_rush_spike");
      OneMoreWhere(records, (r: Record) => r.phase == "ticket_rush_spike" && r.result.Some? && r.result.value.ok);
    }
  }

  function SoldCount(records: seq<Record>, seat: string): nat {
    if records == [] then 0
    else SoldCount(records[..|records| - 1], seat) + (if SeatSale(records[|records| - 1], seat) then 1 else 0)
  }

  ghost predicate Covers(records: seq<Record>, seats: seq<string>) {
    Distinct(seats) && forall seat :: seat in seats <==> SoldCount(records, seat) > 0
  }

  function SumOfCounts(records: seq<Record>, seats: seq<string>): nat {
    if seats == [] then 0
    else SumOfCounts(records, seats[..|seats| - 1]) + SoldCount(records, seats[|seats| - 1])
  }

  function Doubles(records: seq<Record>, seats: seq<string>): nat {
    if seats == [] then 0
    else Doubles(records, seats[..|seats| - 1]) + (if SoldCount(records, seats[|seats| - 1]) > 1 then 1 else 0)
  }

  lemma SoldGrows(init: seq<Record>, r: Record, seat: string)
    ensures SoldCount(init + [r], seat) == SoldCount(init, seat) + (if SeatSale(r, seat) then 1 else 0)
  {
    assert (init + [r])[..|init|] == init;
  }

  lemma {:induction false} SumGrows(init: seq<Record>, r: Record, seats: seq<string>)
    requires Distinct(seats)
    ensures SumOfCounts(init + [r], seats) ==
            SumOfCounts(init, seats) + (if Sale(r) && r.op.BookTicket? && r.op.seatId in seats then 1 else 0)
  {
    if seats != [] {
      var n := |seats| - 1;
      SumGrows(init, r, seats[..n]);
      SoldGrows(init, r, seats[n]);
      assert seats == seats[..n] + [seats[n]];
    }
  }

  lemma {:induction false} NoSalesNoSum(seats: seq<string>)
    ensures SumOfCounts([], seats) == 0
  {
    if seats != [] { NoSalesNoSum(seats[..|seats| - 1]); }
  }

  predicate OnlyBookings(records: seq<Record>) {
    forall k :: 0 <= k < |records| && Sale(records[k]) ==> records[k].op.BookTicket?
  }

  /** Counted seat by seat or record by record, the sales are the same. */
  lemma {:induction false} SalesBySeat(records: seq<Record>, seats: seq<string>)
    requires OnlyBookings(records) && Distinct(seats)
    requires forall k :: 0 <= k < |records| && Sale(records[k]) ==> records[k].op.seatId in seats
    ensures SumOfCounts(records, seats) == SaleCount(records)
  {
    if records == [] {
      NoSalesNoSum(seats);
    } else {
      var n := |records| - 1;
      SalesBySeat(records[..n], seats);
      SumGrows(records[..n], records[n], seats);
      assert records == records[..n] + [records[n]];
    }
  }

  lemma {:induction false} SoldIff(records: seq<Record>, seat: string)
    ensures SoldCount(records, seat) > 0 <==> exists k :: 0 <= k < |records| && SeatSale(records[k], seat)
  {
    if records != [] {
      var n := |records| - 1;
      SoldIff(records[..n], seat);
      if k :| 0 <= k < |records| && SeatSale(records[k], seat) {
        assert k < n ==> records[..n][k] == records[k];
      }
    }
  }

  ghost predicate SoldTwice(records: seq<Record>, seat: string) {
    exists j, k :: 0 <= j < k < |records| && SeatSale(records[j], seat) && SeatSale(records[k], seat)
  }

  lemma {:induction false} SoldTwiceIff(records: seq<Record>, seat: string)
    ensures SoldCount(records, seat) > 1 <==> SoldTwice(records, seat)
  {
    if records != [] {
      var n := |records| - 1;
      var init := records[..n];
      SoldTwiceIff(init, seat);
      SoldIff(init, seat);
      if SoldTwice(init, seat) {
        var j, k :| 0 <= j < k < n && SeatSale(init[j], seat) && SeatSale(init[k], seat);
        assert SeatSale(records[j], seat) && SeatSale(records[k], seat);
      }
      if SeatSale(records[n], seat) && SoldCount(init, seat) > 0 {
        var j :| 0 <= j < n && SeatSale(init[j], seat);
        assert SeatSale(records[j], seat);
      }
      if SoldTwice(records, seat) {
        var j, k :| 0 <= j < k < |records| && SeatSale(records[j], seat) && SeatSale(records[k], seat);
        assert SeatSale(init[j], seat);
        if k < n { assert SeatSale(init[k], seat); }
      }
    }
  }

  lemma {:induction false} DoublesZeroIff(records: seq<Record>, seats: seq<string>)
    ensures Doubles(records, seats) == 0 <==> forall k :: 0 <= k < |seats| ==> SoldCount(records, seats[k]) <= 1
  {
    if seats != [] { DoublesZeroIff(records, seats[..|seats| - 1]); }
  }

  /** The tally reports no double sale exactly when no seat ID was sold twice, whatever matches the sales were for. */
  lemma NoDoubleSaleIff(records: seq<Record>, seats: seq<string>)
    requires Covers(records, seats)
    ensures Doubles(records, seats) == 0 <==> forall seat :: !SoldTwice(records, seat)
  {
    DoublesZeroIff(records, seats);
    forall seat ensures SoldCount(records, seat) > 1 <==> SoldTwice(records, seat) { SoldTwiceIff(records, seat); }
  }

  /** The seat IDs sold more than once. */
  ghost function DoubleSold(records: seq<Record>): (seats: set<string>)
    ensures forall seat :: seat in seats <==> SoldTwice(records, seat)
  {
    set k: nat | k < |records| && records[k].op.BookTicket? && SoldTwice(records, records[k].op.seatId) ::
      records[k].op.seatId
  }

  ghost function TwiceAmong(records: seq<Record>, seats: seq<string>): set<string> {
    set seat | seat in seats && SoldTwice(records, seat)
  }

  lemma TwiceGrows(records: seq<Record>, init: seq<string>, seat: string)
    requires seat !in init
    ensures |TwiceAmong(records, init + [seat])| ==
            |TwiceAmong(records, init)| + (if SoldTwice(records, seat) then 1 else 0)
  {
    assert TwiceAmong(records, init + [seat]) ==
           TwiceAmong(records, init) + (if SoldTwice(records, seat) then {seat} else {});
  }

  lemma {:induction false} DoublesUpTo(records: seq<Record>, seats: seq<string>)
    requires Distinct(seats)
    ensures Doubles(records, seats) == |TwiceAmong(records, seats)|
  {
    if seats == [] {
      assert TwiceAmong(records, seats) == {};
    } else {
      var n := |seats| - 1;
      DoublesUpTo(records, seats[..n]);
      SoldTwiceIff(records, seats[n]);
      TwiceGrows(records, seats[..n], seats[n]);
      assert seats == seats[..n] + [seats[n]];
    }
  }

  /** A seat ID counts once however often it was sold. */
  lemma {:induction false} DoublesAreSeats(records: seq<Record>, seats: seq<string>)
    requires Covers(records, seats)
    ensures Doubles(records, seats) == |DoubleSold(records)|
  {
    DoublesUpTo(records, seats);
    forall seat | SoldTwice(records, seat) ensures seat in seats { SoldTwiceIff(records, seat); }
    assert DoubleSold(records) == TwiceAmong(records, seats);
  }

  lemma CountStep(records: seq<Record>, i: nat)
    requires i < |records|
    ensures RushCount(records[..i + 1]) == RushCount(records[..i]) + (if records[i].phase == RUSH then 1 else 0)
    ensures SaleCount(records[..i + 1]) == SaleCount(records[..i]) + (if Sale(records[i]) then 1 else 0)
    ensures forall seat :: SoldCount(records[..i + 1], seat) ==
                           SoldCount(records[..i], seat) + (if SeatSale(records[i], seat) then 1 else 0)
  {
    assert records[..i + 1][..i] == records[..i];
  }

  ghost predicate Counted(records: seq<Record>, sold: map<string, nat>, seats: seq<string>) {
    && Covers(records, seats)
    && forall seat :: (seat in sold <==> seat in seats) && (seat in sold ==> sold[seat] == SoldCount(records, seat))
  }

  /** The counting loop. A sale without a seat is a KeyError, reported as None. */
  method CountSales(records: seq<Record>) returns (counted: Option<(nat, map<string, nat>, seq<string>)>)
    ensures counted.None? <==> !OnlyBookings(records)
    ensures counted.Some? ==>
              counted.value.0 == RushCount(records) && Counted(records, counted.value.1, counted.value.2)
  {
    var attempts: nat, sold: map<string, nat>, seats: seq<string> := 0, map[], [];
    for i := 0 to |records|
      invariant OnlyBookings(records[..i])
      invariant attempts == RushCount(records[..i])
      invariant Counted(records[..i], sold, seats)
    {
      CountStep(records, i);
      var r := records[i];
      assert r == records[..i + 1][i];
      if r.phase == RUSH {
        attempts := attempts + 1;
        if IsOk(r.result) {
          if !r.op.BookTicket? { return None; }
          var seat := r.op.seatId;
          if seat !in sold { seats := seats + [seat]; }
          sold := sold[seat := (if seat in sold then sold[seat] else 0) + 1];
        }
      }
    }
    assert records[..|records|] == records;
    return Some((attempts, sold, seats));
  }

  method SeatRushTally(records: seq<Record>) returns (tally: Option<SeatTally>, ghost seats: seq<string>)
    ensures tally.None? <==> !OnlyBookings(records)
    ensures tally.Some? ==>
              && Covers(records, seats)
              && tally.value.attempts == RushCount(records)
              && tally.value.successes == SaleCount(records)
              && tally.value.distinctSeats == |seats|
              && tally.value.doubleSold == Doubles(records, seats)
              && tally.value.doubleSold == |DoubleSold(records)|
              && (tally.value.doubleSold == 0 <==> forall seat :: !SoldTwice(records, seat))
  {
    var counted := CountSales(records);
    seats := [];
    if counted.None? { return None, []; }
    var (attempts, sold, order) := counted.value;
    seats := order;
    var successes: nat, doubles: nat := 0, 0;
    for i := 0 to |order|
      invariant successes == SumOfCounts(records, order[..i])
      invariant doubles == Doubles(records, order[..i])
    {
      assert order[..i + 1][..i] == order[..i];
      assert order[i] in order;
      successes := successes + sold[order[i]];
      if sold[order[i]] > 1 { doubles := doubles + 1; }
    }
    assert order[..|order|] == order;
    forall k | 0 <= k < |records| && Sale(records[k]) ensures records[k].op.seatId in order {
      assert SeatSale(records[k], records[k].op.seatId);
      SoldIff(records, records[k].op.seatId);
    }
    SalesBySeat(records, order);
    NoDoubleSaleIff(records, order);
    DoublesAreSeats(records, order);
    return Some(SeatTally(attempts, successes, |order|, doubles)), order;
  }

  // ---- The hotel shuttle ---------------------------------------------------

  predicate Boards(r: Record, id: string) { r.op.DispatchShuttle? && r.op.shuttleId == id && IsOk(r.result) }

  /** Seats of the accepted dispatches of a shuttle. */
  function Boardings(records: seq<Record>, id: string): int {
    if records == [] then 0
    else
      var r := records[|records| - 1];
      Boardings(records[..|records| - 1], id) + (if Boards(r, id) then BoardingOf(r.op) else 0)
  }

  function CapacityIn(b: Buckets, id: string): int {
    if id in b.shuttles then b.shuttles[id].capacity else HOTEL_CAPACITY
  }

  method HotelShuttleTally(records: seq<Record>, final: Buckets) returns (t: ShuttleTally)
    ensures t.boardings == Boardings(records, "shuttle_hotel")
    ensures if "shuttle_hotel" in final.shuttles then
              var shuttle := final.shuttles["shuttle_hotel"];
              t.finalPassengers == shuttle.passengers && t.capacity == shuttle.capacity
            else t.finalPassengers == 0 && t.capacity == 50
    ensures t.finalPassengers == Histories.PassengersOf(final, HOTEL) && t.capacity == CapacityIn(final, HOTEL)
    ensures t.lostUpdate <==> Boardings(records, HOTEL) != Histories.PassengersOf(final, HOTEL)
    ensures t.overCapacity <==> Histories.PassengersOf(final, HOTEL) > CapacityIn(final, HOTEL)
  {
    var attempted := 0;
    for i := 0 to |records|
      invariant attempted == Boardings(records[..i], HOTEL)
    {
      assert records[..i + 1][..i] == records[..i];
      var r := records[i];
      if r.op.DispatchShuttle? && r.op.shuttleId == HOTEL {
        if IsOk(r.result) { attempted := attempted + BoardingOf(r.op); }
      }
    }
    assert records[..|records|] == records;
    var known := HOTEL in final.shuttles;
    var passengers := if known then final.shuttles[HOTEL].passengers else 0;
    var capacity := if known then final.shuttles[HOTEL].capacity else HOTEL_CAPACITY;
    t := ShuttleTally(attempted, passengers, capacity, attempted != passengers, passengers > capacity);
  }

  // ---- Attribution ---------------------------------------------------------

  function Present(seats: map<string, string>, bookings: seq<(string, string)>): nat {
    if bookings == [] then 0
    else Present(seats, bookings[..|bookings| - 1]) + (if bookings[|bookings| - 1].0 in seats then 1 else 0)
  }

  predicate Misplaced(seats: map<string, string>, booking: (string, string)) {
    booking.0 in seats && seats[booking.0] != booking.1
  }

  function Wrong(seats: map<string, string>, bookings: seq<(string, string)>): nat {
    if bookings == [] then 0
    else Wrong(seats, bookings[..|bookings| - 1]) + (if Misplaced(seats, bookings[|bookings| - 1]) then 1 else 0)
  }

  lemma {:induction false} NoneWrongIff(seats: map<string, string>, bookings: seq<(string, string)>)
    ensures Wrong(seats, bookings) == 0 <==> forall k :: 0 <= k < |bookings| ==> !Misplaced(seats, bookings[k])
  {
    if bookings != [] { NoneWrongIff(seats, bookings[..|bookings| - 1]); }
  }

  /** The counts in plain terms: booked seats that are stored, and those of them stored for somebody else. */
  lemma {:induction false} SeatNumbers(seats: map<string, string>, bookings: seq<(string, string)>)
    ensures Present(seats, bookings) == |Where(bookings, (b: (string, string)) => b.0 in seats)|
    ensures Wrong(seats, bookings) == |Where(bookings, (b: (string, string)) => b.0 in seats && seats[b.0] != b.1)|
  {
    if bookings != [] {
      SeatNumbers(seats, bookings[..|bookings| - 1]);
      OneMoreWhere(bookings, (b: (string, string)) => b.0 in seats);
      OneMoreWhere(bookings, (b: (string, string)) => b.0 in seats && seats[b.0] != b.1);
    }
  }

  /** Compares the stored owner of each booked seat with the user who booked it; missing seats are skipped. */
  method Misattributed(seats: map<string, string>, bookings: seq<(string, string)>) returns (present: nat, wrong: nat)
    ensures present == Present(seats, bookings) && wrong == Wrong(seats, bookings)
    ensures wrong == 0 <==> forall k :: 0 <= k < |bookings| ==> !Misplaced(seats, bookings[k])
  {
    present, wrong := 0, 0;
    for i := 0 to |bookings|
      invariant present == Present(seats, bookings[..i]) && wrong == Wrong(seats, bookings[..i])
    {
      assert bookings[..i + 1][..i] == bookings[..i];
      var (seat, user) := bookings[i];
      if seat in seats {
        present := present + 1;
        if seats[seat] != user { wrong := wrong + 1; }
      }
    }
    assert bookings[..|bookings|] == bookings;
    NoneWrongIff(seats, bookings);
  }
}
