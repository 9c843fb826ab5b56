/** Who ends up owning a seat of the monolith, with the coarse lock or without it, and runs with a wrong owner. */
module SeatOwners {
  import opened Domain
  import opened MonolithThreads
  import opened ThreadedServer
  import Semantics
  import Monolith
  import Histories

  predicate Books(op: Op, m: string, seat: string) { op.BookTicket? && op.matchId == m && op.seatId == seat }

  /** Booking i leaves its window, which is when it reads `_CTX`. */
  predicate ReadsActor(locked: bool, ops: seq<Op>, p: Process, a: Action, i: nat) {
    a == Step(i) && i < |ops| == |p.threads| && ops[i].BookTicket? && Enabled(locked, p, a) && p.threads[i].pc.Window?
  }

  /** The last request to have entered when booking i left its window. */
  function TakenBy(ref: Roster, locked: bool, ops: seq<Op>, trace: seq<Action>, i: nat): Option<nat> {
    if trace == [] then None
    else
      var init, a := trace[..|trace| - 1], trace[|trace| - 1];
      var entrants := Entrants(ref, locked, ops, init);
      if ReadsActor(locked, ops, Run(ref, locked, ops, init), a, i) && entrants != [] then
        Some(entrants[|entrants| - 1])
      else TakenBy(ref, locked, ops, init, i)
  }

  predicate WritesSeat(locked: bool, ops: seq<Op>, p: Process, a: Action, m: string, seat: string) {
    && a.Step? && a.who < |ops| == |p.threads| && Books(ops[a.who], m, seat)
    && Enabled(locked, p, a) && p.threads[a.who].pc.Sell?
  }

  /** The bookings that wrote the seat, in the order they did. */
  function Writers(ref: Roster, locked: bool, ops: seq<Op>, trace: seq<Action>, m: string, seat: string): seq<nat> {
    if trace == [] then []
    else
      var init, a := trace[..|trace| - 1], trace[|trace| - 1];
      Writers(ref, locked, ops, init, m, seat) +
      (if WritesSeat(locked, ops, Run(ref, locked, ops, init), a, m, seat) then [a.who] else [])
  }

  lemma PcMoves(ref: Roster, locked: bool, ops: seq<Op>, p: Process, a: Action, i: nat)
    requires i < |ops| == |p.threads|
    ensures PcOf(Next(ref, locked, ops, p, a).threads[i]) ==
            if a == Step(i) && Enabled(locked, p, a) then Micro(ref, ops[i], At(p.threads[i].pc, p.mem)).pc
            else PcOf(p.threads[i])
  {
  }

  /** Whom booking i takes for its buyer, and still knows it took once it has written. */
  ghost predicate BuyerOk(ops: seq<Op>, pc: Pc, taken: Option<nat>) {
    && (pc.Sell? || Wrote(pc) ==> taken.Some? && taken.value < |ops|)
    && (pc.Sell? ==> pc.buyer == Monolith.ActorOf(ops[taken.value]))
  }

  lemma LeavingWindow(ref: Roster, ops: seq<Op>, p: Process, entrants: seq<nat>, i: nat)
    requires Fair(ref, ops, p, entrants) && i < |ops| && p.threads[i] == Running(Window)
    ensures entrants != [] && entrants[|entrants| - 1] < |ops|
    ensures p.mem.actor == Monolith.ActorOf(ops[entrants[|entrants| - 1]])
  {
    assert ThreadOk(ref, ops, entrants, i, p.threads[i], p.mem);
  }

  lemma BuyerStep(ref: Roster, ops: seq<Op>, p: Process, entrants: seq<nat>, i: nat, taken: Option<nat>)
    requires Fair(ref, ops, p, entrants) && i < |ops| && ops[i].BookTicket? && p.threads[i].Running?
    requires BuyerOk(ops, p.threads[i].pc, taken)
    ensures p.threads[i].pc.Window? ==> entrants != []
    ensures BuyerOk(ops, Micro(ref, ops[i], At(p.threads[i].pc, p.mem)).pc,
                    if p.threads[i].pc.Window? then Some(entrants[|entrants| - 1]) else taken)
  {
    MicroBooking(ref, ops[i], At(p.threads[i].pc, p.mem));
    if p.threads[i].pc.Window? { LeavingWindow(ref, ops, p, entrants, i); }
  }

  lemma {:induction false} BuyerKnown(ref: Roster, locked: bool, ops: seq<Op>, trace: seq<Action>, i: nat)
    requires i < |ops| && ops[i].BookTicket?
    ensures BuyerOk(ops, PcOf(Run(ref, locked, ops, trace).threads[i]), TakenBy(ref, locked, ops, trace, i))
  {
    if trace != [] {
      var init, a := trace[..|trace| - 1], trace[|trace| - 1];
      BuyerKnown(ref, locked, ops, init, i);
      var p := Run(ref, locked, ops, init);
      PcMoves(ref, locked, ops, p, a, i);
      if a == Step(i) && Enabled(locked, p, a) {
        AlwaysFair(ref, locked, ops, init);
        BuyerStep(ref, ops, p, Entrants(ref, locked, ops, init), i, TakenBy(ref, locked, ops, init, i));
      }
    }
  }

  /** A booking that got as far as its window is by a rostered user. */
  lemma {:induction false} TakersAreRostered(ref: Roster, locked: bool, ops: seq<Op>, trace: seq<Action>, i: nat)
    requires TakenBy(ref, locked, ops, trace, i).Some?
    ensures i < |ops| && ops[i].BookTicket? && ops[i].userId in ref.users
  {
    var init, a := trace[..|trace| - 1], trace[|trace| - 1];
    var p := Run(ref, locked, ops, init);
    if ReadsActor(locked, ops, p, a, i) {
      AlwaysFair(ref, locked, ops, init);
      assert ThreadOk(ref, ops, Entrants(ref, locked, ops, init), i, p.threads[i], p.mem);
    } else {
      TakersAreRostered(ref, locked, ops, init, i);
    }
  }

  /** What a booking took for its buyer no longer changes once it has written. */
  lemma TakenStays(ref: Roster, locked: bool, ops: seq<Op>, trace: seq<Action>, a: Action, i: nat)
    requires i < |ops| && (Wrote(PcOf(Run(ref, locked, ops, trace).threads[i])) ||
                           PcOf(Run(ref, locked, ops, trace).threads[i]).Sell?)
    ensures TakenBy(ref, locked, ops, trace + [a], i) == TakenBy(ref, locked, ops, trace, i)
  {
    assert (trace + [a])[..|trace|] == trace;
  }

  lemma WritersStep(ref: Roster, locked: bool, ops: seq<Op>, trace: seq<Action>, a: Action, m: string, seat: string)
    ensures Writers(ref, locked, ops, trace + [a], m, seat) ==
            Writers(ref, locked, ops, trace, m, seat) +
            (if WritesSeat(locked, ops, Run(ref, locked, ops, trace), a, m, seat) then [a.who] else [])
  {
    assert (trace + [a])[..|trace|] == trace;
  }

  /** A booking wrote the seat exactly when it is past its seat write. */
  lemma {:induction false} WritersWrote(ref: Roster, locked: bool, ops: seq<Op>, trace: seq<Action>, m: string,
                                        seat: string, i: nat)
    ensures i in Writers(ref, locked, ops, trace, m, seat) <==>
            i < |ops| && Books(ops[i], m, seat) && Wrote(PcOf(Run(ref, locked, ops, trace).threads[i]))
  {
    if trace != [] {
      var init, a := trace[..|trace| - 1], trace[|trace| - 1];
      var p := Run(ref, locked, ops, init);
      WritersWrote(ref, locked, ops, init, m, seat, i);
      if i < |ops| {
        PcMoves(ref, locked, ops, p, a, i);
        if Books(ops[i], m, seat) && a == Step(i) && Enabled(locked, p, a) {
          MicroBooking(ref, ops[i], At(p.threads[i].pc, p.mem));
        }
      }
    }
  }

  lemma NextOwner(ref: Roster, locked: bool, ops: seq<Op>, p: Process, a: Action, m: string, seat: string)
    requires |p.threads| == |ops|
    ensures Histories.OwnerOf(Next(ref, locked, ops, p, a).mem.state.buckets, m, seat) ==
            if WritesSeat(locked, ops, p, a, m, seat) then Some(p.threads[a.who].pc.buyer)
            else Histories.OwnerOf(p.mem.state.buckets, m, seat)
  {
    if a.Step? && Enabled(locked, p, a) {
      MicroOwner(ref, ops[a.who], At(p.threads[a.who].pc, p.mem), m, seat);
    }
  }

  /** The last booking to have written the seat. */
  function LastWriter(ref: Roster, locked: bool, ops: seq<Op>, trace: seq<Action>, m: string, seat: string): nat
    requires Writers(ref, locked, ops, trace, m, seat) != []
  {
    var writers := Writers(ref, locked, ops, trace, m, seat);
    writers[|writers| - 1]
  }

  /** The request that decides the seat: the last to have entered when the seat's last writer left its window. */
  function Decider(ref: Roster, locked: bool, ops: seq<Op>, trace: seq<Action>, m: string, seat: string): Option<nat> {
    if Writers(ref, locked, ops, trace, m, seat) == [] then None
    else TakenBy(ref, locked, ops, trace, LastWriter(ref, locked, ops, trace, m, seat))
  }

  lemma WriterKnown(ref: Roster, locked: bool, ops: seq<Op>, trace: seq<Action>, m: string, seat: string, i: nat)
    requires i in Writers(ref, locked, ops, trace, m, seat)
    ensures i < |ops| && Books(ops[i], m, seat) && Wrote(PcOf(Run(ref, locked, ops, trace).threads[i]))
    ensures TakenBy(ref, locked, ops, trace, i).Some? && TakenBy(ref, locked, ops, trace, i).value < |ops|
  {
    WritersWrote(ref, locked, ops, trace, m, seat, i);
    BuyerKnown(ref, locked, ops, trace, i);
  }

  /** What the bookings so far account for. */
  ghost predicate OwnerExplained(ref: Roster, locked: bool, ops: seq<Op>, trace: seq<Action>, m: string, seat: string) {
    var decider := Decider(ref, locked, ops, trace, m, seat);
    && (decider.Some? <==> Writers(ref, locked, ops, trace, m, seat) != [])
    && (decider.Some? ==> decider.value < |ops|)
    && Histories.OwnerOf(Run(ref, locked, ops, trace).mem.state.buckets, m, seat) ==
       if decider.None? then None else Some(Monolith.ActorOf(ops[decider.value]))
  }

  /**
   * Who owns a seat, in every run, with or without the lock: nobody if no booking wrote it, and otherwise whoever the
   * deciding request acts for.
   */
  lemma {:induction false} StoredOwner(ref: Roster, locked: bool, ops: seq<Op>, trace: seq<Action>, m: string,
                                       seat: string)
    ensures var decider := Decider(ref, locked, ops, trace, m, seat);
            && (decider.Some? <==> Writers(ref, locked, ops, trace, m, seat) != [])
            && (decider.Some? ==> decider.value < |ops|)
            && Histories.OwnerOf(Run(ref, locked, ops, trace).mem.state.buckets, m, seat) ==
               if decider.None? then None else Some(Monolith.ActorOf(ops[decider.value]))
  {
    if trace == [] {
      assert Semantics.MatchOf(EMPTY_BUCKETS, m) == Semantics.EMPTY_MATCH;
    } else {
      var init, a := trace[..|trace| - 1], trace[|trace| - 1];
      StoredOwner(ref, locked, ops, init, m, seat);
      assert trace == init + [a];
      if WritesSeat(locked, ops, Run(ref, locked, ops, init), a, m, seat) {
        OwnerWritten(ref, locked, ops, init, a, m, seat);
      } else {
        OwnerKept(ref, locked, ops, init, a, m, seat);
      }
    }
  }

  /** In terms of the deciding request's own fields. */
  lemma {:induction false} OwnerIsNamed(ref: Roster, locked: bool, ops: seq<Op>, trace: seq<Action>, m: string,
                                        seat: string)
    ensures var decider := Decider(ref, locked, ops, trace, m, seat);
            var owner := Histories.OwnerOf(Run(ref, locked, ops, trace).mem.state.buckets, m, seat);
            && (decider.Some? <==> owner.Some?)
            && (owner.Some? ==> decider.value < |ops| && Monolith.ActsFor(ops[decider.value], owner.value))
  {
    StoredOwner(ref, locked, ops, trace, m, seat);
  }

  lemma OwnerWritten(ref: Roster, locked: bool, ops: seq<Op>, trace: seq<Action>, a: Action, m: string, seat: string)
    requires WritesSeat(locked, ops, Run(ref, locked, ops, trace), a, m, seat)
    ensures OwnerExplained(ref, locked, ops, trace + [a], m, seat)
  {
    RunStep(ref, locked, ops, trace, a);
    NextOwner(ref, locked, ops, Run(ref, locked, ops, trace), a, m, seat);
    WritersStep(ref, locked, ops, trace, a, m, seat);
    BuyerKnown(ref, locked, ops, trace, a.who);
    TakenStays(ref, locked, ops, trace, a, a.who);
  }

  lemma SameOwner(ref: Roster, locked: bool, ops: seq<Op>, trace: seq<Action>, a: Action, m: string, seat: string)
    requires !WritesSeat(locked, ops, Run(ref, locked, ops, trace), a, m, seat)
    ensures Histories.OwnerOf(Run(ref, locked, ops, trace + [a]).mem.state.buckets, m, seat) ==
            Histories.OwnerOf(Run(ref, locked, ops, trace).mem.state.buckets, m, seat)
  {
    RunStep(ref, locked, ops, trace, a);
    NextOwner(ref, locked, ops, Run(ref, locked, ops, trace), a, m, seat);
  }

  lemma SameWriters(ref: Roster, locked: bool, ops: seq<Op>, trace: seq<Action>, a: Action, m: string, seat: string)
    requires !WritesSeat(locked, ops, Run(ref, locked, ops, trace), a, m, seat)
    ensures Writers(ref, locked, ops, trace + [a], m, seat) == Writers(ref, locked, ops, trace, m, seat)
  {
    WritersStep(ref, locked, ops, trace, a, m, seat);
  }

  lemma LastWriterKnows(ref: Roster, locked: bool, ops: seq<Op>, trace: seq<Action>, a: Action, m: string,
                        seat: string)
    requires Writers(ref, locked, ops, trace, m, seat) != []
    ensures var i := LastWriter(ref, locked, ops, trace, m, seat);
            TakenBy(ref, locked, ops, trace + [a], i) == TakenBy(ref, locked, ops, trace, i)
  {
    var i := LastWriter(ref, locked, ops, trace, m, seat);
    WriterKnown(ref, locked, ops, trace, m, seat, i);
    TakenStays(ref, locked, ops, trace, a, i);
  }

  lemma SameDecider(ref: Roster, locked: bool, ops: seq<Op>, trace: seq<Action>, a: Action, m: string, seat: string)
    requires !WritesSeat(locked, ops, Run(ref, locked, ops, trace), a, m, seat)
    ensures Writers(ref, locked, ops, trace + [a], m, seat) == Writers(ref, locked, ops, trace, m, seat)
    ensures Decider(ref, locked, ops, trace + [a], m, seat) == Decider(ref, locked, ops, trace, m, seat)
  {
    SameWriters(ref, locked, ops, trace, a, m, seat);
    if Writers(ref, locked, ops, trace, m, seat) != [] { LastWriterKnows(ref, locked, ops, trace, a, m, seat); }
  }

  lemma OwnerKept(ref: Roster, locked: bool, ops: seq<Op>, trace: seq<Action>, a: Action, m: string, seat: string)
    requires OwnerExplained(ref, locked, ops, trace, m, seat)
    requires !WritesSeat(locked, ops, Run(ref, locked, ops, trace), a, m, seat)
    ensures OwnerExplained(ref, locked, ops, trace + [a], m, seat)
  {
    SameOwner(ref, locked, ops, trace, a, m, seat);
    SameDecider(ref, locked, ops, trace, a, m, seat);
  }

  predicate ToldYes(t: Thread) { PcOf(t).Return? && PcOf(t).reply.ok }

  /** A booking told "ok" owns its seat exactly when the seat's deciding request acts for its user. */
  lemma {:induction false} ToldOwnsIff(ref: Roster, locked: bool, ops: seq<Op>, trace: seq<Action>, i: nat)
    requires i < |ops| && ops[i].BookTicket? && ToldYes(Run(ref, locked, ops, trace).threads[i])
    ensures var m, seat := ops[i].matchId, ops[i].seatId;
            var decider := Decider(ref, locked, ops, trace, m, seat);
            var owner := Histories.OwnerOf(Run(ref, locked, ops, trace).mem.state.buckets, m, seat);
            && i in Writers(ref, locked, ops, trace, m, seat) && decider.Some? && decider.value < |ops|
            && (owner == Some(ops[i].userId) <==> Monolith.ActorOf(ops[decider.value]) == ops[i].userId)
  {
    WritersWrote(ref, locked, ops, trace, ops[i].matchId, ops[i].seatId, i);
    StoredOwner(ref, locked, ops, trace, ops[i].matchId, ops[i].seatId);
  }

  lemma OneInside(ref: Roster, ops: seq<Op>, trace: seq<Action>, i: nat, j: nat)
    requires i < |ops| && j < |ops|
    requires Run(ref, true, ops, trace).threads[i].Running? && Run(ref, true, ops, trace).threads[j].Running?
    ensures i == j
  {
    AlwaysGood(ref, ops, trace);
    var p := Run(ref, true, ops, trace);
    assert p.lock == Some(i) && p.lock == Some(j);
  }

  predicate Inside(p: Process, i: nat) { i < |p.threads| && p.threads[i].Running? && !p.threads[i].pc.Enter? }

  /** Behind the lock the last to have entered is the holder. */
  lemma {:induction false} HolderEnteredLast(ref: Roster, ops: seq<Op>, trace: seq<Action>, i: nat)
    requires Inside(Run(ref, true, ops, trace), i)
    ensures var entrants := Entrants(ref, true, ops, trace); entrants != [] && entrants[|entrants| - 1] == i
  {
    var init, a := trace[..|trace| - 1], trace[|trace| - 1];
    var p := Run(ref, true, ops, init);
    if !(Enters(true, p, a) && a.who == i) {
      InsideBefore(ref, true, ops, p, a, i);
      HolderEnteredLast(ref, ops, init, i);
      if Enters(true, p, a) { OneInside(ref, ops, init, i, a.who); }
    }
  }

  lemma InsideBefore(ref: Roster, locked: bool, ops: seq<Op>, p: Process, a: Action, i: nat)
    requires |p.threads| == |ops| && Inside(Next(ref, locked, ops, p, a), i)
    requires !(Enters(locked, p, a) && a.who == i)
    ensures Inside(p, i)
  {
  }

  /** So behind the lock every booking takes itself. */
  lemma {:induction false} LockedTakesItself(ref: Roster, ops: seq<Op>, trace: seq<Action>, i: nat)
    requires TakenBy(ref, true, ops, trace, i).Some?
    ensures TakenBy(ref, true, ops, trace, i) == Some(i)
  {
    var init, a := trace[..|trace| - 1], trace[|trace| - 1];
    if ReadsActor(true, ops, Run(ref, true, ops, init), a, i) && Entrants(ref, true, ops, init) != [] {
      HolderEnteredLast(ref, ops, init, i);
    } else {
      LockedTakesItself(ref, ops, init, i);
    }
  }

  // ---- A wrong sale --------------------------------------------------------

  /** What a process without a lock looks like with two requests in it. */
  function Pair(mem: Memory, first: Thread, second: Thread): Process { Process(mem, None, [first, second], true) }

  /** The globals once a booking has found its seat free, with `who` the last to write `_CTX`. */
  function Checked(m: string, who: string): Memory { PutMatch(Memory(INITIAL, who), m, Semantics.EMPTY_MATCH) }

  lemma BookingEnters(ref: Roster, op: Op, other: Op) returns (trace: seq<Action>)
    requires op.BookTicket? && op.userId in ref.users
    ensures Run(ref, false, [op, other], trace) == Pair(Memory(INITIAL, op.userId), Running(Begin), Waiting)
  {
    var ops := [op, other];
    trace := [] + [Arrive(0)] + [Step(0)];
    assert Start(ops) == Pair(Memory(INITIAL, "system"), Waiting, Waiting);
    RunStep(ref, false, ops, [], Arrive(0));
    RunStep(ref, false, ops, [] + [Arrive(0)], Step(0));
  }

  lemma OtherEnters(ref: Roster, op: Op, other: Op, before: seq<Action>, mem: Memory, first: Thread)
    returns (trace: seq<Action>)
    requires Run(ref, false, [op, other], before) == Pair(mem, first, Waiting)
    ensures Run(ref, false, [op, other], trace) ==
            Pair(mem.(actor := Monolith.ActorOf(other)), first, Running(Begin))
  {
    trace := before + [Arrive(1)] + [Step(1)];
    OtherArrives(ref, op, other, before, mem, first);
    RunStep(ref, false, [op, other], before + [Arrive(1)], Step(1));
    assert Micro(ref, other, At(Enter, mem)) == At(Begin, mem.(actor := Monolith.ActorOf(other)));
  }

  lemma OtherArrives(ref: Roster, op: Op, other: Op, before: seq<Action>, mem: Memory, first: Thread)
    requires Run(ref, false, [op, other], before) == Pair(mem, first, Waiting)
    ensures Run(ref, false, [op, other], before + [Arrive(1)]) == Pair(mem, first, Running(Enter))
  {
    RunStep(ref, false, [op, other], before, Arrive(1));
  }

  /** The booking takes a step of its own, c being where that leads. */
  lemma BookingSteps(ref: Roster, op: Op, other: Op, before: seq<Action>, pc: Pc, mem: Memory, second: Thread,
                     c: Config) returns (trace: seq<Action>)
    requires op.BookTicket? && Live(pc)
    requires c == MonolithThreads.BookTicket(ref, op.matchId, op.seatId, op.userId, pc, mem)
    requires Run(ref, false, [op, other], before) == Pair(mem, Running(pc), second)
    ensures Run(ref, false, [op, other], trace) == Pair(c.mem, Running(c.pc), second)
  {
    trace := before + [Step(0)];
    RunStep(ref, false, [op, other], before, Step(0));
    assert Micro(ref, op, At(pc, mem)) == c;
    assert !c.pc.Die?;
  }

  lemma BookingLeaves(ref: Roster, op: Op, other: Op, before: seq<Action>, reply: Result, mem: Memory, second: Thread)
    returns (trace: seq<Action>)
    requires Run(ref, false, [op, other], before) == Pair(mem, Running(Return(reply)), second)
    ensures Run(ref, false, [op, other], trace) == Pair(mem, Left(Return(reply)), second)
  {
    trace := before + [Leave(0)];
    RunStep(ref, false, [op, other], before, Leave(0));
  }

  /** From an empty process into the window of a booking. */
  lemma IntoTheWindow(ref: Roster, op: Op, other: Op) returns (trace: seq<Action>)
    requires op.BookTicket? && op.userId in ref.users
    ensures Run(ref, false, [op, other], trace) == Pair(Checked(op.matchId, op.userId), Running(Window), Waiting)
  {
    var mem := Checked(op.matchId, op.userId);
    trace := BookingEnters(ref, op, other);
    trace := BookingSteps(ref, op, other, trace, Begin, Memory(INITIAL, op.userId), Waiting, At(Examine, mem));
    trace := BookingSteps(ref, op, other, trace, Examine, mem, Waiting, At(Window, mem));
  }

  /** The globals after the seat write. */
  function Sold(mem: Memory, m: string, seat: string): Memory {
    PutMatch(mem, m, MatchAt(mem, m).(seats := MatchAt(mem, m).seats[seat := mem.actor]))
  }

  lemma SellsToActor(mem: Memory, m: string, seat: string)
    ensures Histories.OwnerOf(Sold(mem, m, seat).state.buckets, m, seat) == Some(mem.actor)
  {
  }

  lemma BookingSells(ref: Roster, op: Op, other: Op, before: seq<Action>, mem: Memory, second: Thread)
    returns (trace: seq<Action>)
    requires op.BookTicket? && Run(ref, false, [op, other], before) == Pair(mem, Running(Window), second)
    ensures Run(ref, false, [op, other], trace) ==
            Pair(Logging(Sold(mem, op.matchId, op.seatId), TicketBooked(op.matchId, op.seatId, op.userId)),
                 Left(Return(Reply(true, SoldTo(op.seatId, op.userId)))), second)
  {
    var sold, reply := Sold(mem, op.matchId, op.seatId), Reply(true, SoldTo(op.seatId, op.userId));
    var done := Logging(sold, TicketBooked(op.matchId, op.seatId, op.userId));
    trace := SeatWritten(ref, op, other, before, mem, second);
    trace := BookingSteps(ref, op, other, trace, Record(0, true), sold, second, At(Return(reply), done));
    trace := BookingLeaves(ref, op, other, trace, reply, done, second);
  }

  lemma SeatWritten(ref: Roster, op: Op, other: Op, before: seq<Action>, mem: Memory, second: Thread)
    returns (trace: seq<Action>)
    requires op.BookTicket? && Run(ref, false, [op, other], before) == Pair(mem, Running(Window), second)
    ensures Run(ref, false, [op, other], trace) ==
            Pair(Sold(mem, op.matchId, op.seatId), Running(Record(0, true)), second)
  {
    var sold := Sold(mem, op.matchId, op.seatId);
    trace := BookingSteps(ref, op, other, before, Window, mem, second, At(Sell(mem.actor), mem));
    trace := BookingSteps(ref, op, other, trace, Sell(mem.actor), mem, second, At(Record(0, true), sold));
  }

  /**
   * Without the lock the seat can go to somebody else: let any other request enter while a booking is in its window,
   * and the caller is told the seat is theirs while its owner is whoever the other request acts for.
   */
  lemma {:induction false} WrongOwner(ref: Roster, m: string, seat: string, user: string, other: Op)
    returns (trace: seq<Action>)
    requires user in ref.users
    ensures var p := Run(ref, false, [Op.BookTicket(m, seat, user), other], trace);
            && p.threads[0] == Left(Return(Reply(true, SoldTo(seat, user))))
            && Histories.OwnerOf(p.mem.state.buckets, m, seat) == Some(Monolith.ActorOf(other))
  {
    var op, mem := Op.BookTicket(m, seat, user), Checked(m, Monolith.ActorOf(other));
    trace := IntoTheWindow(ref, op, other);
    trace := OtherEnters(ref, op, other, trace, Checked(m, user), Running(Window));
    trace := BookingSells(ref, op, other, trace, mem, Running(Begin));
    SellsToActor(mem, m, seat);
  }

  /** A subscription, for instance: the seat is then the subscriber's. */
  lemma {:induction false} SubscriberGetsTheSeat(ref: Roster, m: string, seat: string, user: string, subscriber: string,
                                                 topic: string) returns (trace: seq<Action>)
    requires user in ref.users && subscriber != ""
    ensures var p := Run(ref, false, [Op.BookTicket(m, seat, user), Op.SubscribeToUpdates(subscriber, topic)], trace);
            && p.threads[0] == Left(Return(Reply(true, SoldTo(seat, user))))
            && Histories.OwnerOf(p.mem.state.buckets, m, seat) == Some(subscriber)
  {
    trace := WrongOwner(ref, m, seat, user, Op.SubscribeToUpdates(subscriber, topic));
  }

  // ---- One seat sold twice -------------------------------------------------

  lemma SecondSteps(ref: Roster, op: Op, other: Op, before: seq<Action>, pc: Pc, mem: Memory, first: Thread, c: Config)
    returns (trace: seq<Action>)
    requires other.BookTicket? && Live(pc)
    requires c == MonolithThreads.BookTicket(ref, other.matchId, other.seatId, other.userId, pc, mem)
    requires Run(ref, false, [op, other], before) == Pair(mem, first, Running(pc))
    ensures Run(ref, false, [op, other], trace) == Pair(c.mem, first, Running(c.pc))
  {
    trace := before + [Step(1)];
    RunStep(ref, false, [op, other], before, Step(1));
    assert Micro(ref, other, At(pc, mem)) == c;
    assert !c.pc.Die?;
  }

  /** The globals once the seat has been written for `who`. */
  function SeatOf(m: string, seat: string, who: string, actor: string): Memory {
    PutMatch(Memory(INITIAL, actor), m, Semantics.EMPTY_MATCH.(seats := map[seat := who]))
  }

  /** Both bookings have found the seat free, and each has taken its own user for the buyer. */
  lemma BothPassTheCheck(ref: Roster, m: string, seat: string, u: string, v: string) returns (trace: seq<Action>)
    requires u in ref.users && v in ref.users
    ensures Run(ref, false, [Op.BookTicket(m, seat, u), Op.BookTicket(m, seat, v)], trace) ==
            Pair(Checked(m, v), Running(Sell(u)), Running(Sell(v)))
  {
    var op, other := Op.BookTicket(m, seat, u), Op.BookTicket(m, seat, v);
    trace := IntoTheWindow(ref, op, other);
    trace := BookingSteps(ref, op, other, trace, Window, Checked(m, u), Waiting, At(Sell(u), Checked(m, u)));
    trace := OtherEnters(ref, op, other, trace, Checked(m, u), Running(Sell(u)));
    trace := SecondPasses(ref, op, other, trace, Running(Sell(u)));
  }

  lemma SecondPasses(ref: Roster, op: Op, other: Op, before: seq<Action>, first: Thread) returns (trace: seq<Action>)
    requires other.BookTicket? && other.userId in ref.users
    requires Run(ref, false, [op, other], before) == Pair(Checked(other.matchId, other.userId), first, Running(Begin))
    ensures Run(ref, false, [op, other], trace) ==
            Pair(Checked(other.matchId, other.userId), first, Running(Sell(other.userId)))
  {
    var mem := Checked(other.matchId, other.userId);
    PutMatchTwice(Memory(INITIAL, other.userId), other.matchId, Semantics.EMPTY_MATCH, Semantics.EMPTY_MATCH);
    trace := SecondSteps(ref, op, other, before, Begin, mem, first, At(Examine, mem));
    trace := SecondSteps(ref, op, other, trace, Examine, mem, first, At(Window, mem));
    trace := SecondSteps(ref, op, other, trace, Window, mem, first, At(Sell(other.userId), mem));
  }

  lemma BothWrite(ref: Roster, m: string, seat: string, u: string, v: string, before: seq<Action>)
    returns (trace: seq<Action>)
    requires Run(ref, false, [Op.BookTicket(m, seat, u), Op.BookTicket(m, seat, v)], before) ==
             Pair(Checked(m, v), Running(Sell(u)), Running(Sell(v)))
    ensures Run(ref, false, [Op.BookTicket(m, seat, u), Op.BookTicket(m, seat, v)], trace) ==
            Pair(SeatOf(m, seat, v, v), Running(Record(0, true)), Running(Record(0, true)))
  {
    var op, other := Op.BookTicket(m, seat, u), Op.BookTicket(m, seat, v);
    var mine, theirs := SeatOf(m, seat, u, v), SeatOf(m, seat, v, v);
    var none := Semantics.EMPTY_MATCH;
    PutMatchTwice(Memory(INITIAL, v), m, none, none.(seats := map[seat := u]));
    trace := BookingSteps(ref, op, other, before, Sell(u), Checked(m, v), Running(Sell(v)), At(Record(0, true), mine));
    PutMatchTwice(Memory(INITIAL, v), m, none.(seats := map[seat := u]), none.(seats := map[seat := v]));
    assert map[seat := u][seat := v] == map[seat := v];
    trace := SecondSteps(ref, op, other, trace, Sell(v), mine, Running(Record(0, true)), At(Record(0, true), theirs));
  }

  lemma BothLeave(ref: Roster, op: Op, other: Op, before: seq<Action>, mem: Memory, yes: Result, ja: Result)
    returns (trace: seq<Action>)
    requires Run(ref, false, [op, other], before) == Pair(mem, Running(Return(yes)), Running(Return(ja)))
    ensures Run(ref, false, [op, other], trace) == Pair(mem, Left(Return(yes)), Left(Return(ja)))
  {
    trace := BookingLeaves(ref, op, other, before, yes, mem, Running(Return(ja)));
    RunStep(ref, false, [op, other], trace, Leave(1));
    trace := trace + [Leave(1)];
  }

  /**
   * Nor is it enough that each booking took its own user: two bookings of one seat can both pass the check and both be
   * told that the seat is theirs, and the later write decides.
   */
  lemma {:induction false} BothTold(ref: Roster, m: string, seat: string, u: string, v: string)
    returns (trace: seq<Action>)
    requires u in ref.users && v in ref.users
    ensures var p := Run(ref, false, [Op.BookTicket(m, seat, u), Op.BookTicket(m, seat, v)], trace);
            && p.threads == [Left(Return(Reply(true, SoldTo(seat, u)))),
                             Left(Return(Reply(true, SoldTo(seat, v))))]
            && Histories.OwnerOf(p.mem.state.buckets, m, seat) == Some(v)
  {
    var op, other := Op.BookTicket(m, seat, u), Op.BookTicket(m, seat, v);
    var yes, ja := Reply(true, SoldTo(seat, u)), Reply(true, SoldTo(seat, v));
    var sold := SeatOf(m, seat, v, v);
    var logged := Logging(sold, TicketBooked(m, seat, u));
    var done := Logging(logged, TicketBooked(m, seat, v));
    trace := BothPassTheCheck(ref, m, seat, u, v);
    trace := BothWrite(ref, m, seat, u, v, trace);
    var record := Record(0, true);
    trace := BookingSteps(ref, op, other, trace, record, sold, Running(record), At(Return(yes), logged));
    trace := SecondSteps(ref, op, other, trace, record, logged, Running(Return(yes)), At(Return(ja), done));
    trace := BothLeave(ref, op, other, trace, done, yes, ja);
  }
}
