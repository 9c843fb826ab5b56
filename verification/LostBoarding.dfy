/** Without the lock the monolith can lose a boarding: both callers are told, and the shuttle carries one group. */
module LostBoarding {
  import opened Domain
  import opened MonolithThreads
  import opened ThreadedServer
  import Histories
  import SeatOwners

  /** A dispatch that names both its seats and its capacity. */
  function Ask(id: string, route: string, seats: int, capacity: int): Op {
    Op.DispatchShuttle(id, route, Some(seats), Some(capacity))
  }

  /** One step of the first, or of the second, of two requests. */
  lemma FirstMoves(ref: Roster, op: Op, other: Op, before: seq<Action>, pc: Pc, mem: Memory, second: Thread, c: Config)
    returns (trace: seq<Action>)
    requires !Terminal(pc) && Micro(ref, op, At(pc, mem)) == c && !c.pc.Die?
    requires Run(ref, false, [op, other], before) == SeatOwners.Pair(mem, Running(pc), second)
    ensures Run(ref, false, [op, other], trace) == SeatOwners.Pair(c.mem, Running(c.pc), second)
  {
    trace := before + [Step(0)];
    RunStep(ref, false, [op, other], before, Step(0));
  }

  lemma SecondMoves(ref: Roster, op: Op, other: Op, before: seq<Action>, pc: Pc, mem: Memory, first: Thread, c: Config)
    returns (trace: seq<Action>)
    requires !Terminal(pc) && Micro(ref, other, At(pc, mem)) == c && !c.pc.Die?
    requires Run(ref, false, [op, other], before) == SeatOwners.Pair(mem, first, Running(pc))
    ensures Run(ref, false, [op, other], trace) == SeatOwners.Pair(c.mem, first, Running(c.pc))
  {
    trace := before + [Step(1)];
    RunStep(ref, false, [op, other], before, Step(1));
  }

  function Empty(route: string, capacity: int): Shuttle { Shuttle(route, 0, capacity) }

  /** The globals once the shuttle is there with so many aboard. */
  function Aboard(id: string, route: string, capacity: int, load: int): Memory {
    PutShuttle(Memory(INITIAL, "system"), id, Empty(route, capacity).(passengers := load))
  }

  /** Dispatches name no user, so they act for the system. */
  lemma Steps(ref: Roster, id: string, route: string, seats: int, capacity: int, pc: Pc, mem: Memory)
    requires Live(pc)
    ensures Micro(ref, Ask(id, route, seats, capacity), At(pc, mem)) ==
            MonolithThreads.DispatchShuttle(id, route, seats, capacity, pc, mem)
  {
  }

  lemma Enters(ref: Roster, id: string, route: string, seats: int, capacity: int, mem: Memory)
    requires mem.actor == "system"
    ensures Micro(ref, Ask(id, route, seats, capacity), At(Enter, mem)) == At(Begin, mem)
  {
  }

  /** The first steps of a dispatch, up to having read how many are aboard, find room and change nothing more. */
  lemma UpToReading(ref: Roster, id: string, route: string, seats: int, capacity: int, pc: Pc)
    requires seats <= capacity && (pc.Begin? || pc.Mark? || pc.Examine? || pc.ReadLoad?)
    ensures var mem := Aboard(id, route, capacity, 0);
            Micro(ref, Ask(id, route, seats, capacity), At(pc, mem)) ==
            At(match pc case Begin => Mark case Mark => Examine case Examine => ReadLoad case _ => Board(0), mem)
  {
    var mem := Aboard(id, route, capacity, 0);
    Steps(ref, id, route, seats, capacity, pc, mem);
    PutShuttleTwice(Memory(INITIAL, "system"), id, Empty(route, capacity), Empty(route, capacity));
  }

  lemma FirstBegins(ref: Roster, id: string, route: string, seats: int, capacity: int)
    ensures Micro(ref, Ask(id, route, seats, capacity),
                  At(Begin, Memory(INITIAL, "system"))) ==
            At(Mark, Aboard(id, route, capacity, 0))
  {
    Steps(ref, id, route, seats, capacity, Begin, Memory(INITIAL, "system"));
  }

  /** Boarding writes the number read earlier plus its own, whoever has boarded since. */
  lemma Boards(ref: Roster, id: string, route: string, seats: int, capacity: int, load: int)
    ensures Micro(ref, Ask(id, route, seats, capacity),
                  At(Board(0), Aboard(id, route, capacity, load))) ==
            At(LogLoad, Aboard(id, route, capacity, seats))
  {
    var was, now := Empty(route, capacity).(passengers := load), Empty(route, capacity).(passengers := seats);
    Steps(ref, id, route, seats, capacity, Board(0), Aboard(id, route, capacity, load));
    PutShuttleTwice(Memory(INITIAL, "system"), id, was, now);
  }

  /** Both dispatches have read that nobody is aboard. */
  lemma BothRead(ref: Roster, id: string, route: string, a: int, b: int, capacity: int) returns (trace: seq<Action>)
    requires a <= capacity && b <= capacity
    ensures var op, other := Ask(id, route, a, capacity), Ask(id, route, b, capacity);
            Run(ref, false, [op, other], trace) ==
            SeatOwners.Pair(Aboard(id, route, capacity, 0), Running(Board(0)), Running(Board(0)))
  {
    var op := Ask(id, route, a, capacity);
    var other := Ask(id, route, b, capacity);
    trace := FirstReads(ref, id, route, a, capacity, other);
    trace := SecondReads(ref, id, route, b, capacity, op, trace);
  }

  lemma FirstEnters(ref: Roster, id: string, route: string, seats: int, capacity: int, other: Op)
    returns (trace: seq<Action>)
    ensures var op := Ask(id, route, seats, capacity);
            Run(ref, false, [op, other], trace) ==
            SeatOwners.Pair(Memory(INITIAL, "system"), Running(Begin), Waiting)
  {
    var op, mem := Ask(id, route, seats, capacity), Memory(INITIAL, "system");
    trace := [] + [Arrive(0)];
    assert Start([op, other]) == SeatOwners.Pair(mem, Waiting, Waiting);
    RunStep(ref, false, [op, other], [], Arrive(0));
    Enters(ref, id, route, seats, capacity, mem);
    trace := FirstMoves(ref, op, other, trace, Enter, mem, Waiting, At(Begin, mem));
  }

  lemma FirstReads(ref: Roster, id: string, route: string, seats: int, capacity: int, other: Op)
    returns (trace: seq<Action>)
    requires seats <= capacity
    ensures var op := Ask(id, route, seats, capacity);
            Run(ref, false, [op, other], trace) ==
            SeatOwners.Pair(Aboard(id, route, capacity, 0), Running(Board(0)), Waiting)
  {
    var op, mem := Ask(id, route, seats, capacity), Aboard(id, route, capacity, 0);
    trace := FirstEnters(ref, id, route, seats, capacity, other);
    FirstBegins(ref, id, route, seats, capacity);
    trace := FirstMoves(ref, op, other, trace, Begin, Memory(INITIAL, "system"), Waiting, At(Mark, mem));
    UpToReading(ref, id, route, seats, capacity, Mark);
    trace := FirstMoves(ref, op, other, trace, Mark, mem, Waiting, At(Examine, mem));
    UpToReading(ref, id, route, seats, capacity, Examine);
    trace := FirstMoves(ref, op, other, trace, Examine, mem, Waiting, At(ReadLoad, mem));
    UpToReading(ref, id, route, seats, capacity, ReadLoad);
    trace := FirstMoves(ref, op, other, trace, ReadLoad, mem, Waiting, At(Board(0), mem));
  }

  lemma SecondReads(ref: Roster, id: string, route: string, seats: int, capacity: int, op: Op, before: seq<Action>)
    returns (trace: seq<Action>)
    requires seats <= capacity
    requires var other := Ask(id, route, seats, capacity);
             Run(ref, false, [op, other], before) ==
             SeatOwners.Pair(Aboard(id, route, capacity, 0), Running(Board(0)), Waiting)
    ensures var other := Ask(id, route, seats, capacity);
            Run(ref, false, [op, other], trace) ==
            SeatOwners.Pair(Aboard(id, route, capacity, 0), Running(Board(0)), Running(Board(0)))
  {
    var other, mem := Ask(id, route, seats, capacity), Aboard(id, route, capacity, 0);
    var first := Running(Board(0));
    trace := SeatOwners.OtherEnters(ref, op, other, before, mem, first);
    UpToReading(ref, id, route, seats, capacity, Begin);
    trace := SecondMoves(ref, op, other, trace, Begin, mem, first, At(Mark, mem));
    UpToReading(ref, id, route, seats, capacity, Mark);
    trace := SecondMoves(ref, op, other, trace, Mark, mem, first, At(Examine, mem));
    UpToReading(ref, id, route, seats, capacity, Examine);
    trace := SecondMoves(ref, op, other, trace, Examine, mem, first, At(ReadLoad, mem));
    UpToReading(ref, id, route, seats, capacity, ReadLoad);
    trace := SecondMoves(ref, op, other, trace, ReadLoad, mem, first, At(Board(0), mem));
  }

  /** The rest of a dispatch that has boarded its group: it logs and reports what it then finds aboard. */
  lemma ReadsForLog(ref: Roster, id: string, route: string, seats: int, capacity: int, load: int, mem: Memory)
    requires ShuttleAt(mem, id).passengers == load
    ensures Micro(ref, Ask(id, route, seats, capacity), At(LogLoad, mem)) == At(Record(load, true), mem)
  {
    Steps(ref, id, route, seats, capacity, LogLoad, mem);
  }

  lemma Notes(ref: Roster, id: string, route: string, seats: int, capacity: int, load: int, mem: Memory)
    ensures Micro(ref, Ask(id, route, seats, capacity), At(Record(load, true), mem)) ==
            At(ReadBack(true), Logging(mem, ShuttleDispatched(id, route, load)))
  {
    Steps(ref, id, route, seats, capacity, Record(load, true), mem);
  }

  lemma Reports(ref: Roster, id: string, route: string, seats: int, capacity: int, load: int, mem: Memory)
    requires ShuttleAt(mem, id).passengers == load
    ensures Micro(ref, Ask(id, route, seats, capacity), At(ReadBack(true), mem)) ==
            At(Return(Reply(true, OnRoute(id, route, load))), mem)
  {
    Steps(ref, id, route, seats, capacity, ReadBack(true), mem);
  }

  lemma SecondFinishes(ref: Roster, id: string, route: string, a: int, b: int, capacity: int, before: seq<Action>)
    returns (trace: seq<Action>)
    requires var op, other := Ask(id, route, a, capacity), Ask(id, route, b, capacity);
             Run(ref, false, [op, other], before) ==
             SeatOwners.Pair(Aboard(id, route, capacity, 0), Running(Board(0)), Running(Board(0)))
    ensures var op, other := Ask(id, route, a, capacity), Ask(id, route, b, capacity);
            Run(ref, false, [op, other], trace) ==
            SeatOwners.Pair(Logging(Aboard(id, route, capacity, b), ShuttleDispatched(id, route, b)),
                            Running(Board(0)), Running(Return(Reply(true, OnRoute(id, route, b)))))
  {
    var op := Ask(id, route, a, capacity);
    var other := Ask(id, route, b, capacity);
    var mem, first := Aboard(id, route, capacity, b), Running(Board(0));
    var done, reply := Logging(mem, ShuttleDispatched(id, route, b)), Reply(true, OnRoute(id, route, b));
    Boards(ref, id, route, b, capacity, 0);
    trace := SecondMoves(ref, op, other, before, Board(0), Aboard(id, route, capacity, 0), first, At(LogLoad, mem));
    ReadsForLog(ref, id, route, b, capacity, b, mem);
    Notes(ref, id, route, b, capacity, b, mem);
    Reports(ref, id, route, b, capacity, b, done);
    trace := SecondMoves(ref, op, other, trace, LogLoad, mem, first, At(Record(b, true), mem));
    trace := SecondMoves(ref, op, other, trace, Record(b, true), mem, first, At(ReadBack(true), done));
    trace := SecondMoves(ref, op, other, trace, ReadBack(true), done, first, At(Return(reply), done));
  }

  /** The first one's write, late, forgets the second one's group. */
  lemma BoardsLate(ref: Roster, id: string, route: string, a: int, b: int, capacity: int)
    ensures var noted := ShuttleDispatched(id, route, b);
            Micro(ref, Ask(id, route, a, capacity),
                  At(Board(0), Logging(Aboard(id, route, capacity, b), noted))) ==
            At(LogLoad, Logging(Aboard(id, route, capacity, a), noted))
  {
    var noted := ShuttleDispatched(id, route, b);
    var was, now := Empty(route, capacity).(passengers := b), Empty(route, capacity).(passengers := a);
    Steps(ref, id, route, a, capacity, Board(0), Logging(Aboard(id, route, capacity, b), noted));
    PutShuttleTwice(Memory(INITIAL, "system"), id, was, now);
  }

  lemma FirstFinishes(ref: Roster, id: string, route: string, a: int, b: int, capacity: int, second: Thread,
                      before: seq<Action>) returns (trace: seq<Action>)
    requires var op, other := Ask(id, route, a, capacity), Ask(id, route, b, capacity);
             Run(ref, false, [op, other], before) ==
             SeatOwners.Pair(Logging(Aboard(id, route, capacity, b), ShuttleDispatched(id, route, b)),
                             Running(Board(0)), second)
    ensures var op, other := Ask(id, route, a, capacity), Ask(id, route, b, capacity);
            var noted := Logging(Aboard(id, route, capacity, a), ShuttleDispatched(id, route, b));
            Run(ref, false, [op, other], trace) ==
            SeatOwners.Pair(Logging(noted, ShuttleDispatched(id, route, a)),
                            Running(Return(Reply(true, OnRoute(id, route, a)))), second)
  {
    var op := Ask(id, route, a, capacity);
    var other := Ask(id, route, b, capacity);
    var mem := Logging(Aboard(id, route, capacity, a), ShuttleDispatched(id, route, b));
    var done, reply := Logging(mem, ShuttleDispatched(id, route, a)), Reply(true, OnRoute(id, route, a));
    BoardsLate(ref, id, route, a, b, capacity);
    trace := FirstMoves(ref, op, other, before, Board(0),
                        Logging(Aboard(id, route, capacity, b), ShuttleDispatched(id, route, b)), second,
                        At(LogLoad, mem));
    ReadsForLog(ref, id, route, a, capacity, a, mem);
    Notes(ref, id, route, a, capacity, a, mem);
    Reports(ref, id, route, a, capacity, a, done);
    trace := FirstMoves(ref, op, other, trace, LogLoad, mem, second, At(Record(a, true), mem));
    trace := FirstMoves(ref, op, other, trace, Record(a, true), mem, second, At(ReadBack(true), done));
    trace := FirstMoves(ref, op, other, trace, ReadBack(true), done, second, At(Return(reply), done));
  }

  /**
   * Two dispatches of one new shuttle, each within its capacity, can both be accepted without the lock while the
   * shuttle ends up carrying only the first one's group.
   */
  lemma {:induction false} OneGroupLost(ref: Roster, id: string, route: string, a: int, b: int, capacity: int)
    returns (trace: seq<Action>)
    requires a <= capacity && b <= capacity
    ensures var op, other := Op.DispatchShuttle(id, route, Some(a), Some(capacity)),
                             Op.DispatchShuttle(id, route, Some(b), Some(capacity));
            var p := Run(ref, false, [op, other], trace);
            && p.threads == [Left(Return(Reply(true, OnRoute(id, route, a)))),
                             Left(Return(Reply(true, OnRoute(id, route, b))))]
            && Histories.PassengersOf(p.mem.state.buckets, id) == a
  {
    var op := Op.DispatchShuttle(id, route, Some(a), Some(capacity));
    var other := Op.DispatchShuttle(id, route, Some(b), Some(capacity));
    var yes, also := Reply(true, OnRoute(id, route, a)), Reply(true, OnRoute(id, route, b));
    var noted := Logging(Aboard(id, route, capacity, a), ShuttleDispatched(id, route, b));
    var done := Logging(noted, ShuttleDispatched(id, route, a));
    trace := BothRead(ref, id, route, a, b, capacity);
    trace := SecondFinishes(ref, id, route, a, b, capacity, trace);
    trace := FirstFinishes(ref, id, route, a, b, capacity, Running(Return(also)), trace);
    trace := SeatOwners.BothLeave(ref, op, other, trace, done, yes, also);
  }
}
