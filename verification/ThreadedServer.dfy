/** The monolith serving any number of threads, behind the coarse lock or without it, under every interleaving. */
module ThreadedServer {
  import opened Domain
  import opened MonolithThreads
  import Semantics
  import Monolith
  import Histories

  datatype Thread = Waiting | Running(pc: Pc) | Left(pc: Pc)

  /** The shared process. Once it aborts, no thread moves again. */
  datatype Process = Process(mem: Memory, lock: Option<nat>, threads: seq<Thread>, alive: bool)

  /** Arrive and Leave are the two ends of `handle`; with the lock on they also take and release it. */
  datatype Action = Arrive(who: nat) | Step(who: nat) | Leave(who: nat)

  predicate Enabled(locked: bool, p: Process, a: Action) {
    && p.alive && a.who < |p.threads|
    && var t := p.threads[a.who];
       match a
       case Arrive(_) => t.Waiting? && (locked ==> p.lock == None)
       case Step(_) => t.Running? && !Terminal(t.pc)
       case Leave(_) => t.Running? && Terminal(t.pc)
  }

  function Next(ref: Roster, locked: bool, ops: seq<Op>, p: Process, a: Action): Process
    requires |ops| == |p.threads|
  {
    if !Enabled(locked, p, a) then p
    else
      var i := a.who;
      match a
      case Arrive(_) => p.(lock := if locked then Some(i) else p.lock, threads := p.threads[i := Running(Enter)])
      case Step(_) =>
        var c := Micro(ref, ops[i], At(p.threads[i].pc, p.mem));
        p.(mem := c.mem, threads := p.threads[i := Running(c.pc)], alive := !c.pc.Die?)
      case Leave(_) => p.(lock := if locked then None else p.lock, threads := p.threads[i := Left(p.threads[i].pc)])
  }

  function Start(ops: seq<Op>): Process {
    Process(Memory(INITIAL, "system"), None, seq(|ops|, _ => Waiting), true)
  }

  function Run(ref: Roster, locked: bool, ops: seq<Op>, trace: seq<Action>): (p: Process)
    ensures |p.threads| == |ops|
  {
    if trace == [] then Start(ops)
    else Next(ref, locked, ops, Run(ref, locked, ops, trace[..|trace| - 1]), trace[|trace| - 1])
  }

  // ---- Behind the lock -----------------------------------------------------

  /** The requests in the order they got the lock. */
  function LockOrder(ref: Roster, ops: seq<Op>, trace: seq<Action>): seq<nat> {
    if trace == [] then []
    else
      var init, a := trace[..|trace| - 1], trace[|trace| - 1];
      LockOrder(ref, ops, init) +
      (if a.Arrive? && Enabled(true, Run(ref, true, ops, init), a) then [a.who] else [])
  }

  /** The requests in the order they left. */
  function LeaveOrder(ref: Roster, ops: seq<Op>, trace: seq<Action>): seq<nat> {
    if trace == [] then []
    else
      var init, a := trace[..|trace| - 1], trace[|trace| - 1];
      LeaveOrder(ref, ops, init) +
      (if a.Leave? && Enabled(true, Run(ref, true, ops, init), a) then [a.who] else [])
  }

  /** The memory the current or last holder of the lock found. */
  function Found(ref: Roster, ops: seq<Op>, trace: seq<Action>): Memory {
    if trace == [] then Start(ops).mem
    else
      var init, a := trace[..|trace| - 1], trace[|trace| - 1];
      var p := Run(ref, true, ops, init);
      if a.Arrive? && Enabled(true, p, a) then p.mem else Found(ref, ops, init)
  }

  ghost predicate InRange(ops: seq<Op>, ids: seq<nat>) {
    forall k :: 0 <= k < |ids| ==> ids[k] < |ops|
  }

  ghost function OpsOf(ops: seq<Op>, ids: seq<nat>): seq<Op>
    requires InRange(ops, ids)
  {
    seq(|ids|, k requires 0 <= k < |ids| => ops[ids[k]])
  }

  /** Those requests run one at a time from a fresh process. */
  ghost function Sequential(ref: Roster, ops: seq<Op>, ids: seq<nat>): State
    requires InRange(ops, ids)
  {
    Monolith.Replay(ref, OpsOf(ops, ids))
  }

  lemma SequentialExtends(ref: Roster, ops: seq<Op>, before: seq<nat>, i: nat)
    requires InRange(ops, before) && i < |ops|
    ensures Sequential(ref, ops, before + [i]) == Monolith.After(ref, ops[i], Sequential(ref, ops, before))
  {
    assert OpsOf(ops, before + [i]) == OpsOf(ops, before) + [ops[i]];
    Monolith.ReplayExtends(ref, OpsOf(ops, before), ops[i]);
  }

  /** The k-th request to leave returned what it returns at its place in that order. */
  ghost predicate Served(ref: Roster, ops: seq<Op>, t: Thread, order: seq<nat>, k: nat)
    requires InRange(ops, order) && k < |order|
  {
    t.Left? && t.pc.Return? && Some(t.pc.reply) == Semantics.ReplyAt(ref, OpsOf(ops, order), k)
  }

  ghost predicate AllServed(ref: Roster, ops: seq<Op>, threads: seq<Thread>, order: seq<nat>)
    requires InRange(ops, order) && |threads| == |ops|
  {
    forall k :: 0 <= k < |order| ==> Served(ref, ops, threads[order[k]], order, k)
  }

  /** The holder has done some steps of its own program from `start`, and nobody else has touched the memory since. */
  ghost predicate HolderOk(ref: Roster, op: Op, t: Thread, alive: bool, mem: Memory, start: Memory) {
    && t.Running? && (alive <==> !t.pc.Die?)
    && Reaches(ProgramOf(ref, op), At(Enter, start), At(t.pc, mem))
  }

  ghost predicate OrderOk(ops: seq<Op>, p: Process, order: seq<nat>) {
    && |p.threads| == |ops| && InRange(ops, order) && Distinct(order)
    && (p.lock.Some? ==> p.lock.value < |ops| && p.lock.value !in order && p.threads[p.lock.value].Running?)
    && (forall i :: 0 <= i < |ops| && p.threads[i].Running? ==> p.lock == Some(i))
    && (forall i :: 0 <= i < |ops| ==> (p.threads[i].Left? <==> i in order))
  }

  ghost predicate MemoryOk(ref: Roster, ops: seq<Op>, p: Process, order: seq<nat>, start: Memory)
    requires OrderOk(ops, p, order)
  {
    if p.lock.None? then p.alive && p.mem.state == Sequential(ref, ops, order)
    else
      && start.state == Sequential(ref, ops, order)
      && HolderOk(ref, ops[p.lock.value], p.threads[p.lock.value], p.alive, p.mem, start)
  }

  ghost predicate Good(ref: Roster, ops: seq<Op>, p: Process, order: seq<nat>, start: Memory) {
    OrderOk(ops, p, order) && MemoryOk(ref, ops, p, order, start) && AllServed(ref, ops, p.threads, order)
  }

  lemma OneMore(program: Program, c: Config, d: Config)
    requires Reaches(program, c, d)
    ensures Reaches(program, c, program(d))
  {
    var n: nat :| Steps(program, n, c) == d;
    StepsSplit(program, n, 1, c);
    assert Steps(program, n + 1, c) == Steps(program, 0, program(d)) == program(d);
  }

  /** A holder that has come to its end came to the one its request has when run alone. */
  lemma HolderEnd(ref: Roster, op: Op, start: Memory, c: Config)
    requires Reaches(ProgramOf(ref, op), At(Enter, start), c) && Terminal(c.pc) && !c.pc.Die?
    ensures c.pc.Return? && Some(c.pc.reply) == Semantics.Apply(ref, op, start.state.buckets).reply
    ensures c.mem.state == Monolith.After(ref, op, start.state)
  {
    var e := Semantics.Apply(ref, op, start.state.buckets);
    var end := At(if e.reply.None? then Die else Return(e.reply.value),
                  Memory(Monolith.After(ref, op, start.state), Monolith.ActorOf(op)));
    RunsAlone(ref, op, start);
    ProgramFacts(ref, op);
    EndIsUnique(ProgramOf(ref, op), At(Enter, start), c, end);
  }

  lemma OthersStayServed(ref: Roster, ops: seq<Op>, threads: seq<Thread>, order: seq<nat>, i: nat, t: Thread)
    requires InRange(ops, order) && |threads| == |ops| && i < |ops| && i !in order
    requires AllServed(ref, ops, threads, order)
    ensures AllServed(ref, ops, threads[i := t], order)
  {
    forall k | 0 <= k < |order| ensures Served(ref, ops, threads[i := t][order[k]], order, k) {
      assert Served(ref, ops, threads[order[k]], order, k);
      assert order[k] in order;
    }
  }

  /** The reply a request has at the end of a sequential order. */
  lemma ReplyNext(ref: Roster, ops: seq<Op>, order: seq<nat>, i: nat)
    requires InRange(ops, order) && i < |ops|
    ensures Semantics.ReplyAt(ref, OpsOf(ops, order + [i]), |order|) ==
            Semantics.Apply(ref, ops[i], Sequential(ref, ops, order).buckets).reply
  {
    assert OpsOf(ops, order + [i])[..|order|] == OpsOf(ops, order);
    Monolith.SameBuckets(ref, OpsOf(ops, order));
  }

  lemma ReplyKept(ref: Roster, ops: seq<Op>, order: seq<nat>, i: nat, k: nat)
    requires InRange(ops, order) && i < |ops| && k < |order|
    ensures Semantics.ReplyAt(ref, OpsOf(ops, order + [i]), k) == Semantics.ReplyAt(ref, OpsOf(ops, order), k)
  {
    assert OpsOf(ops, order + [i]) == OpsOf(ops, order) + [ops[i]];
    Semantics.ReplyAtExtends(ref, OpsOf(ops, order), ops[i], k);
  }

  lemma ServedAt(ref: Roster, ops: seq<Op>, t: Thread, last: Thread, order: seq<nat>, i: nat, k: nat)
    requires InRange(ops, order) && i < |ops| && k <= |order|
    requires k < |order| ==> Served(ref, ops, t, order, k)
    requires Served(ref, ops, last, order + [i], |order|)
    ensures Served(ref, ops, if k < |order| then t else last, order + [i], k)
  {
    if k < |order| { ServedStill(ref, ops, t, order, i, k); }
  }

  lemma OneMoreServed(ref: Roster, ops: seq<Op>, threads: seq<Thread>, order: seq<nat>, i: nat)
    requires InRange(ops, order) && |threads| == |ops| && i < |ops|
    requires AllServed(ref, ops, threads, order)
    requires Served(ref, ops, threads[i], order + [i], |order|)
    ensures AllServed(ref, ops, threads, order + [i])
  {
    var longer := order + [i];
    forall k | 0 <= k < |longer| ensures Served(ref, ops, threads[longer[k]], longer, k) {
      ServedAt(ref, ops, threads[longer[k]], threads[i], order, i, k);
    }
  }

  lemma ServedStill(ref: Roster, ops: seq<Op>, t: Thread, order: seq<nat>, i: nat, k: nat)
    requires InRange(ops, order) && i < |ops| && k < |order| && Served(ref, ops, t, order, k)
    ensures Served(ref, ops, t, order + [i], k)
  {
    ReplyKept(ref, ops, order, i, k);
  }

  lemma ArriveKeeps(ref: Roster, ops: seq<Op>, p: Process, order: seq<nat>, start: Memory, i: nat)
    requires Good(ref, ops, p, order, start) && Enabled(true, p, Arrive(i))
    ensures Good(ref, ops, Next(ref, true, ops, p, Arrive(i)), order, p.mem)
  {
    OthersStayServed(ref, ops, p.threads, order, i, Running(Enter));
    Here(ProgramOf(ref, ops[i]), At(Enter, p.mem));
  }

  lemma StepKeeps(ref: Roster, ops: seq<Op>, p: Process, order: seq<nat>, start: Memory, i: nat)
    requires Good(ref, ops, p, order, start) && Enabled(true, p, Step(i))
    ensures Good(ref, ops, Next(ref, true, ops, p, Step(i)), order, start)
  {
    var c := Micro(ref, ops[i], At(p.threads[i].pc, p.mem));
    OthersStayServed(ref, ops, p.threads, order, i, Running(c.pc));
    OneMore(ProgramOf(ref, ops[i]), At(Enter, start), At(p.threads[i].pc, p.mem));
  }

  lemma LeaveKeeps(ref: Roster, ops: seq<Op>, p: Process, order: seq<nat>, start: Memory, i: nat)
    requires Good(ref, ops, p, order, start) && Enabled(true, p, Leave(i))
    ensures Good(ref, ops, Next(ref, true, ops, p, Leave(i)), order + [i], start)
  {
    HolderEnd(ref, ops[i], start, At(p.threads[i].pc, p.mem));
    SequentialExtends(ref, ops, order, i);
    LeaverServed(ref, ops, p.threads, order, i, p.threads[i].pc);
    LeaveKeepsOrder(ref, ops, p, order, i);
  }

  lemma LeaverServed(ref: Roster, ops: seq<Op>, threads: seq<Thread>, order: seq<nat>, i: nat, pc: Pc)
    requires InRange(ops, order) && |threads| == |ops| && i < |ops| && i !in order
    requires AllServed(ref, ops, threads, order)
    requires pc.Return?
    requires Some(pc.reply) == Semantics.Apply(ref, ops[i], Sequential(ref, ops, order).buckets).reply
    ensures AllServed(ref, ops, threads[i := Left(pc)], order + [i])
  {
    ReplyNext(ref, ops, order, i);
    OthersStayServed(ref, ops, threads, order, i, Left(pc));
    OneMoreServed(ref, ops, threads[i := Left(pc)], order, i);
  }

  lemma LeaveKeepsOrder(ref: Roster, ops: seq<Op>, p: Process, order: seq<nat>, i: nat)
    requires OrderOk(ops, p, order) && Enabled(true, p, Leave(i))
    ensures OrderOk(ops, Next(ref, true, ops, p, Leave(i)), order + [i])
  {
  }

  lemma GoodStep(ref: Roster, ops: seq<Op>, p: Process, order: seq<nat>, start: Memory, a: Action)
    requires Good(ref, ops, p, order, start) && Enabled(true, p, a)
    ensures Good(ref, ops, Next(ref, true, ops, p, a), order + (if a.Leave? then [a.who] else []),
                 if a.Arrive? then p.mem else start)
  {
    assert order + [] == order;
    match a {
      case Arrive(i) => ArriveKeeps(ref, ops, p, order, start, i);
      case Step(i) => StepKeeps(ref, ops, p, order, start, i);
      case Leave(i) => LeaveKeeps(ref, ops, p, order, start, i);
    }
  }

  lemma {:induction false} AlwaysGood(ref: Roster, ops: seq<Op>, trace: seq<Action>)
    ensures Good(ref, ops, Run(ref, true, ops, trace), LeaveOrder(ref, ops, trace), Found(ref, ops, trace))
  {
    if trace == [] {
      assert OpsOf(ops, []) == [];
    } else {
      var init, a := trace[..|trace| - 1], trace[|trace| - 1];
      AlwaysGood(ref, ops, init);
      var p, order := Run(ref, true, ops, init), LeaveOrder(ref, ops, init);
      if Enabled(true, p, a) {
        GoodStep(ref, ops, p, order, Found(ref, ops, init), a);
      } else {
        assert order + [] == order;
      }
    }
  }

  function Holder(p: Process): seq<nat> { if p.lock.Some? then [p.lock.value] else [] }

  lemma HolderStep(ref: Roster, ops: seq<Op>, p: Process, order: seq<nat>, a: Action)
    requires OrderOk(ops, p, order) && Enabled(true, p, a)
    ensures var p' := Next(ref, true, ops, p, a);
            Holder(p) + (if a.Arrive? then [a.who] else []) == (if a.Leave? then [a.who] else []) + Holder(p')
  {
  }

  /** Requests leave in the order they got the lock; only its current holder has not left yet. */
  lemma {:induction false} LockThenLeave(ref: Roster, ops: seq<Op>, trace: seq<Action>)
    ensures LockOrder(ref, ops, trace) == LeaveOrder(ref, ops, trace) + Holder(Run(ref, true, ops, trace))
  {
    if trace != [] {
      var init, a := trace[..|trace| - 1], trace[|trace| - 1];
      LockThenLeave(ref, ops, init);
      AlwaysGood(ref, ops, init);
      var p, order := Run(ref, true, ops, init), LeaveOrder(ref, ops, init);
      if Enabled(true, p, a) {
        HolderStep(ref, ops, p, order, a);
        Regroup(order, Holder(p), if a.Arrive? then [a.who] else [], if a.Leave? then [a.who] else [],
                Holder(Run(ref, true, ops, trace)));
      } else {
        assert order + [] == order && LockOrder(ref, ops, init) + [] == LockOrder(ref, ops, init);
      }
    }
  }

  lemma Regroup(order: seq<nat>, a: seq<nat>, b: seq<nat>, c: seq<nat>, d: seq<nat>)
    requires a + b == c + d
    ensures (order + a) + b == (order + c) + d
  {
    assert (order + a) + b == order + (a + b) == order + (c + d) == (order + c) + d;
  }

  /**
   * Linearizability. With the lock on, however the single reads and writes of the requests interleave, every request
   * that has left returned what it returns at its place in lock order, and whenever the lock is free the globals are
   * those of the requests run one at a time in that order. No request raises.
   */
  lemma {:induction false} Linearizable(ref: Roster, ops: seq<Op>, trace: seq<Action>)
    ensures var p, order := Run(ref, true, ops, trace), LeaveOrder(ref, ops, trace);
            && Distinct(order) && InRange(ops, order) && order <= LockOrder(ref, ops, trace)
            && (forall i :: 0 <= i < |ops| ==> (p.threads[i].Left? <==> i in order))
            && AllServed(ref, ops, p.threads, order)
            && (p.lock.None? ==> p.alive && p.mem.state == Sequential(ref, ops, order))
            && (p.lock.Some? ==> Found(ref, ops, trace).state == Sequential(ref, ops, order))
  {
    AlwaysGood(ref, ops, trace);
    LockThenLeave(ref, ops, trace);
  }

  /** Lock order respects real time: a request that left before another one arrived precedes it. */
  lemma {:induction false} LockOrderIsRealTime(ref: Roster, ops: seq<Op>, trace: seq<Action>, more: seq<Action>)
    ensures LockOrder(ref, ops, trace) <= LockOrder(ref, ops, trace + more)
    ensures var p := Run(ref, true, ops, trace);
            forall i, j :: 0 <= i < |ops| && 0 <= j < |ops| && p.threads[i].Left? && p.threads[j].Waiting? ==>
              i in LockOrder(ref, ops, trace) && j !in LockOrder(ref, ops, trace)
  {
    AlwaysGood(ref, ops, trace);
    LockThenLeave(ref, ops, trace);
    if more == [] {
      assert trace + more == trace;
    } else {
      LockOrderIsRealTime(ref, ops, trace, more[..|more| - 1]);
      assert (trace + more)[..|trace + more| - 1] == trace + more[..|more| - 1];
    }
  }

  // ---- With or without the lock --------------------------------------------

  /** The requests in the order they wrote `_CTX`. */
  function Entrants(ref: Roster, locked: bool, ops: seq<Op>, trace: seq<Action>): seq<nat> {
    if trace == [] then []
    else
      var init, a := trace[..|trace| - 1], trace[|trace| - 1];
      var p := Run(ref, locked, ops, init);
      Entrants(ref, locked, ops, init) + (if Enters(locked, p, a) then [a.who] else [])
  }

  predicate Enters(locked: bool, p: Process, a: Action) {
    a.Step? && Enabled(locked, p, a) && p.threads[a.who].pc.Enter?
  }

  lemma MicroActor(ref: Roster, op: Op, c: Config)
    ensures Micro(ref, op, c).mem.actor == if c.pc.Enter? then Monolith.ActorOf(op) else c.mem.actor
  {
  }

  lemma MicroMatches(ref: Roster, op: Op, c: Config)
    ensures op.BookTicket? || op.PushLiveEvent? || op.GoLive? ||
            Micro(ref, op, c).mem.state.buckets.matches == c.mem.state.buckets.matches
  {
  }

  /** One step changes the owner of at most one seat: the one a booking has just decided to write. */
  lemma {:induction false} MicroOwner(ref: Roster, op: Op, c: Config, m: string, seat: string)
    ensures Histories.OwnerOf(Micro(ref, op, c).mem.state.buckets, m, seat) ==
            if op.BookTicket? && c.pc.Sell? && op.matchId == m && op.seatId == seat then Some(c.pc.buyer)
            else Histories.OwnerOf(c.mem.state.buckets, m, seat)
  {
    MicroMatches(ref, op, c);
    match op {
      case BookTicket(m', seat', user) => TicketOwner(ref, m', seat', user, c.pc, c.mem, m, seat);
      case PushLiveEvent(m', e, d) => PushOwner(m', e, GetOr(d, ""), c.pc, c.mem, m, seat);
      case GoLive(m', stream, d) => GoLiveOwner(m', stream, c.pc, c.mem, m, seat);
      case _ =>
    }
  }

  lemma TicketOwner(ref: Roster, m': string, seat': string, user: string, pc: Pc, mem: Memory, m: string, seat: string)
    ensures Histories.OwnerOf(MonolithThreads.BookTicket(ref, m', seat', user, pc, mem).mem.state.buckets, m, seat) ==
            if pc.Sell? && m' == m && seat' == seat then Some(pc.buyer)
            else Histories.OwnerOf(mem.state.buckets, m, seat)
  {
  }

  lemma AnnounceOwner(m': string, status: string, pc: Pc, mem: Memory, m: string, seat: string)
    ensures Histories.OwnerOf(Announce(m', status, pc, mem).mem.state.buckets, m, seat) ==
            Histories.OwnerOf(mem.state.buckets, m, seat)
  {
  }

  lemma PushOwner(m': string, status: string, details: string, pc: Pc, mem: Memory, m: string, seat: string)
    ensures Histories.OwnerOf(MonolithThreads.PushLiveEvent(m', status, details, pc, mem).mem.state.buckets, m, seat) ==
            Histories.OwnerOf(mem.state.buckets, m, seat)
  {
    if Announcing(pc) { AnnounceOwner(m', status, pc, mem, m, seat); }
  }

  lemma GoLiveOwner(m': string, stream: string, pc: Pc, mem: Memory, m: string, seat: string)
    ensures Histories.OwnerOf(MonolithThreads.GoLive(m', stream, pc, mem).mem.state.buckets, m, seat) ==
            Histories.OwnerOf(mem.state.buckets, m, seat)
  {
    if Announcing(pc) { AnnounceOwner(m', "live", pc, mem, m, seat); }
  }

  /** A booking past its seat write. */
  predicate Wrote(pc: Pc) { pc.Record? || (pc.Return? && pc.reply.ok) }

  /** Between its seat check and its seat write a booking's seat is free. */
  ghost predicate SeatFree(op: Op, c: Config) {
    op.BookTicket? && (c.pc.Window? || c.pc.Sell?) ==>
      Histories.OwnerOf(c.mem.state.buckets, op.matchId, op.seatId).None?
  }

  lemma SeatStaysFree(ref: Roster, op: Op, c: Config)
    requires SeatFree(op, c)
    ensures SeatFree(op, Micro(ref, op, c))
  {
    if op.BookTicket? {
      MicroBooking(ref, op, c);
      MicroOwner(ref, op, c, op.matchId, op.seatId);
      if c.pc.Examine? { CheckedSeat(ref, op, c.mem); }
    }
  }

  lemma CheckedSeat(ref: Roster, op: Op, mem: Memory)
    requires op.BookTicket?
    ensures Micro(ref, op, At(Examine, mem)).pc.Window? ==>
              Histories.OwnerOf(mem.state.buckets, op.matchId, op.seatId).None?
  {
  }

  lemma {:induction false} StepsKeepSeatFree(ref: Roster, op: Op, n: nat, c: Config)
    requires SeatFree(op, c)
    ensures SeatFree(op, Steps(ProgramOf(ref, op), n, c))
  {
    if n > 0 {
      SeatStaysFree(ref, op, c);
      StepsKeepSeatFree(ref, op, n - 1, Micro(ref, op, c));
    }
  }

  lemma HolderFindsSeatFree(ref: Roster, op: Op, start: Memory, c: Config)
    requires Reaches(ProgramOf(ref, op), At(Enter, start), c)
    ensures SeatFree(op, c)
  {
    var n: nat :| Steps(ProgramOf(ref, op), n, At(Enter, start)) == c;
    StepsKeepSeatFree(ref, op, n, At(Enter, start));
  }

  lemma LockedStepKeepsOwner(ref: Roster, ops: seq<Op>, p: Process, order: seq<nat>, start: Memory, a: Action,
                             m: string, seat: string)
    requires Good(ref, ops, p, order, start) && Histories.OwnerOf(p.mem.state.buckets, m, seat).Some?
    ensures Histories.OwnerOf(Next(ref, true, ops, p, a).mem.state.buckets, m, seat) ==
            Histories.OwnerOf(p.mem.state.buckets, m, seat)
  {
    if a.Step? && Enabled(true, p, a) {
      var c := At(p.threads[a.who].pc, p.mem);
      HolderFindsSeatFree(ref, ops[a.who], start, c);
      MicroOwner(ref, ops[a.who], c, m, seat);
    }
  }

  /** Behind the lock an owner is permanent: from any moment on, even in mid-request, the seat stays theirs. */
  lemma {:induction false} LockedOwnerIsPermanent(ref: Roster, ops: seq<Op>, trace: seq<Action>, more: seq<Action>,
                                                  m: string, seat: string)
    requires Histories.OwnerOf(Run(ref, true, ops, trace).mem.state.buckets, m, seat).Some?
    ensures Histories.OwnerOf(Run(ref, true, ops, trace + more).mem.state.buckets, m, seat) ==
            Histories.OwnerOf(Run(ref, true, ops, trace).mem.state.buckets, m, seat)
  {
    if more == [] {
      assert trace + more == trace;
    } else {
      var k := |more| - 1;
      LockedOwnerIsPermanent(ref, ops, trace, more[..k], m, seat);
      LockedRunKeepsOwner(ref, ops, trace + more[..k], more[k], m, seat);
      assert trace + more == (trace + more[..k]) + [more[k]];
    }
  }

  /** What the holder found was the memory at some earlier moment. */
  lemma {:induction false} FoundEarlier(ref: Roster, ops: seq<Op>, trace: seq<Action>) returns (n: nat)
    ensures n <= |trace| && Found(ref, ops, trace) == Run(ref, true, ops, trace[..n]).mem
  {
    if trace == [] {
      n := 0;
    } else {
      var init, a := trace[..|trace| - 1], trace[|trace| - 1];
      if a.Arrive? && Enabled(true, Run(ref, true, ops, init), a) {
        n := |trace| - 1;
      } else {
        n := FoundEarlier(ref, ops, init);
        assert init[..n] == trace[..n];
      }
    }
  }

  /** So an owner in the sequential run of the requests that have left is an owner now, whoever holds the lock. */
  lemma {:induction false} OwnerStillThere(ref: Roster, ops: seq<Op>, trace: seq<Action>, m: string, seat: string)
    requires InRange(ops, LeaveOrder(ref, ops, trace))
    requires Histories.OwnerOf(Sequential(ref, ops, LeaveOrder(ref, ops, trace)).buckets, m, seat).Some?
    ensures Histories.OwnerOf(Run(ref, true, ops, trace).mem.state.buckets, m, seat) ==
            Histories.OwnerOf(Sequential(ref, ops, LeaveOrder(ref, ops, trace)).buckets, m, seat)
  {
    Linearizable(ref, ops, trace);
    if Run(ref, true, ops, trace).lock.Some? { FoundOwnerStays(ref, ops, trace, m, seat); }
  }

  lemma FoundOwnerStays(ref: Roster, ops: seq<Op>, trace: seq<Action>, m: string, seat: string)
    requires Histories.OwnerOf(Found(ref, ops, trace).state.buckets, m, seat).Some?
    ensures Histories.OwnerOf(Run(ref, true, ops, trace).mem.state.buckets, m, seat) ==
            Histories.OwnerOf(Found(ref, ops, trace).state.buckets, m, seat)
  {
    var n := FoundEarlier(ref, ops, trace);
    assert trace == trace[..n] + trace[n..];
    LockedOwnerIsPermanent(ref, ops, trace[..n], trace[n..], m, seat);
  }

  lemma LockedRunKeepsOwner(ref: Roster, ops: seq<Op>, trace: seq<Action>, a: Action, m: string, seat: string)
    requires Histories.OwnerOf(Run(ref, true, ops, trace).mem.state.buckets, m, seat).Some?
    ensures Histories.OwnerOf(Run(ref, true, ops, trace + [a]).mem.state.buckets, m, seat) ==
            Histories.OwnerOf(Run(ref, true, ops, trace).mem.state.buckets, m, seat)
  {
    AlwaysGood(ref, ops, trace);
    var order, start := LeaveOrder(ref, ops, trace), Found(ref, ops, trace);
    LockedStepKeepsOwner(ref, ops, Run(ref, true, ops, trace), order, start, a, m, seat);
    RunStep(ref, true, ops, trace, a);
  }

  lemma RunStep(ref: Roster, locked: bool, ops: seq<Op>, trace: seq<Action>, a: Action)
    ensures Run(ref, locked, ops, trace + [a]) == Next(ref, locked, ops, Run(ref, locked, ops, trace), a)
  {
    assert (trace + [a])[..|trace|] == trace;
  }

  /** What a booking's own step can do to it. */
  lemma MicroBooking(ref: Roster, op: Op, c: Config)
    requires op.BookTicket?
    ensures var c' := Micro(ref, op, c);
            && (Wrote(c'.pc) <==> Wrote(c.pc) || c.pc.Sell?)
            && (c'.pc.Sell? ==> c.pc.Window? && c'.pc.buyer == c.mem.actor)
            && (c.pc.Window? ==> c'.pc.Sell?)
            && (c'.pc.Window? ==> c.pc.Examine?)
            && (c'.pc.Examine? ==> c.pc.Begin? && op.userId in ref.users)
  {
  }

  /** Some request that wrote `_CTX` acted for `who`. */
  ghost predicate Entered(ops: seq<Op>, entrants: seq<nat>, who: string) {
    exists k :: 0 <= k < |entrants| && entrants[k] < |ops| && Monolith.ActorOf(ops[entrants[k]]) == who
  }

  lemma EnteredStays(ops: seq<Op>, entrants: seq<nat>, i: nat, who: string)
    requires Entered(ops, entrants, who) || (i < |ops| && who == Monolith.ActorOf(ops[i]))
    ensures Entered(ops, entrants + [i], who)
  {
    if Entered(ops, entrants, who) {
      var k :| 0 <= k < |entrants| && entrants[k] < |ops| && Monolith.ActorOf(ops[entrants[k]]) == who;
      assert (entrants + [i])[k] == entrants[k];
    } else {
      assert (entrants + [i])[|entrants|] == i;
    }
  }

  /** `_CTX` names whoever wrote it last. */
  ghost predicate ActorOk(ops: seq<Op>, mem: Memory, entrants: seq<nat>) {
    if entrants == [] then mem.actor == "system"
    else
      var last := entrants[|entrants| - 1];
      last < |ops| && mem.actor == Monolith.ActorOf(ops[last])
  }

  function PcOf(t: Thread): Pc { if t.Waiting? then Enter else t.pc }

  /**
   * A request past its first step has entered, a booking past its check is by a rostered user, and its buyer entered.
   */
  ghost predicate ThreadOk(ref: Roster, ops: seq<Op>, entrants: seq<nat>, i: nat, t: Thread, mem: Memory)
    requires i < |ops|
  {
    && (!PcOf(t).Enter? ==> i in entrants)
    && (ops[i].BookTicket? ==>
          && (PcOf(t).Examine? || PcOf(t).Window? ==> ops[i].userId in ref.users)
          && (PcOf(t).Sell? ==> Entered(ops, entrants, PcOf(t).buyer))
          && (Wrote(PcOf(t)) ==> Histories.OwnerOf(mem.state.buckets, ops[i].matchId, ops[i].seatId).Some?))
  }

  ghost predicate ThreadsOk(ref: Roster, ops: seq<Op>, p: Process, entrants: seq<nat>) {
    && |p.threads| == |ops|
    && forall i :: 0 <= i < |ops| ==> ThreadOk(ref, ops, entrants, i, p.threads[i], p.mem)
  }

  ghost predicate OwnersOk(ops: seq<Op>, mem: Memory, entrants: seq<nat>) {
    forall m, seat :: Histories.OwnerOf(mem.state.buckets, m, seat).Some? ==>
      Entered(ops, entrants, Histories.OwnerOf(mem.state.buckets, m, seat).value)
  }

  ghost predicate Fair(ref: Roster, ops: seq<Op>, p: Process, entrants: seq<nat>) {
    ActorOk(ops, p.mem, entrants) && ThreadsOk(ref, ops, p, entrants) && OwnersOk(ops, p.mem, entrants)
  }

  /** No step of any request takes an owned seat away from everybody. */
  lemma SeatsOnlyFill(ref: Roster, op: Op, c: Config, m: string, seat: string)
    requires Histories.OwnerOf(c.mem.state.buckets, m, seat).Some?
    ensures Histories.OwnerOf(Micro(ref, op, c).mem.state.buckets, m, seat).Some?
  {
    MicroOwner(ref, op, c, m, seat);
  }

  lemma EnterKeeps(ref: Roster, ops: seq<Op>, p: Process, entrants: seq<nat>, i: nat)
    requires Fair(ref, ops, p, entrants) && i < |ops|
    ensures Fair(ref, ops,
                 p.(mem := p.mem.(actor := Monolith.ActorOf(ops[i])), threads := p.threads[i := Running(Begin)]),
                 entrants + [i])
  {
    var mem := p.mem.(actor := Monolith.ActorOf(ops[i]));
    var threads := p.threads[i := Running(Begin)];
    forall j | 0 <= j < |ops| ensures ThreadOk(ref, ops, entrants + [i], j, threads[j], mem) {
      assert ThreadOk(ref, ops, entrants, j, p.threads[j], p.mem);
      if j != i && ops[j].BookTicket? && PcOf(p.threads[j]).Sell? {
        EnteredStays(ops, entrants, i, PcOf(p.threads[j]).buyer);
      }
    }
    forall m, seat | Histories.OwnerOf(mem.state.buckets, m, seat).Some?
      ensures Entered(ops, entrants + [i], Histories.OwnerOf(mem.state.buckets, m, seat).value)
    {
      EnteredStays(ops, entrants, i, Histories.OwnerOf(mem.state.buckets, m, seat).value);
    }
  }

  lemma OwnersKept(ref: Roster, ops: seq<Op>, p: Process, entrants: seq<nat>, i: nat)
    requires Fair(ref, ops, p, entrants) && i < |ops| && p.threads[i].Running?
    ensures OwnersOk(ops, Micro(ref, ops[i], At(p.threads[i].pc, p.mem)).mem, entrants)
  {
    assert ThreadOk(ref, ops, entrants, i, p.threads[i], p.mem);
    forall m, seat
      ensures var mem' := Micro(ref, ops[i], At(p.threads[i].pc, p.mem)).mem;
              var o := Histories.OwnerOf(mem'.state.buckets, m, seat);
              o.Some? ==> Entered(ops, entrants, o.value)
    {
      MicroOwner(ref, ops[i], At(p.threads[i].pc, p.mem), m, seat);
    }
  }

  lemma OwnThreadKept(ref: Roster, ops: seq<Op>, p: Process, entrants: seq<nat>, i: nat)
    requires Fair(ref, ops, p, entrants) && i < |ops| && p.threads[i].Running? && !p.threads[i].pc.Enter?
    ensures var c := Micro(ref, ops[i], At(p.threads[i].pc, p.mem));
            ThreadOk(ref, ops, entrants, i, Running(c.pc), c.mem)
  {
    var d := At(p.threads[i].pc, p.mem);
    assert ThreadOk(ref, ops, entrants, i, p.threads[i], p.mem);
    if ops[i].BookTicket? {
      MicroBooking(ref, ops[i], d);
      MicroOwner(ref, ops[i], d, ops[i].matchId, ops[i].seatId);
      if d.pc.Window? { LastEntered(ops, p.mem, entrants, i); }
    }
  }

  lemma LastEntered(ops: seq<Op>, mem: Memory, entrants: seq<nat>, i: nat)
    requires ActorOk(ops, mem, entrants) && i in entrants
    ensures Entered(ops, entrants, mem.actor)
  {
    assert entrants[|entrants| - 1] < |ops|;
  }

  lemma StepStaysFair(ref: Roster, locked: bool, ops: seq<Op>, p: Process, entrants: seq<nat>, i: nat)
    requires Fair(ref, ops, p, entrants) && Enabled(locked, p, Step(i)) && !p.threads[i].pc.Enter?
    ensures Fair(ref, ops, Next(ref, locked, ops, p, Step(i)), entrants)
  {
    var d := At(p.threads[i].pc, p.mem);
    var c, p' := Micro(ref, ops[i], d), Next(ref, locked, ops, p, Step(i));
    MicroActor(ref, ops[i], d);
    OwnersKept(ref, ops, p, entrants, i);
    OwnThreadKept(ref, ops, p, entrants, i);
    forall j | 0 <= j < |ops| ensures ThreadOk(ref, ops, entrants, j, p'.threads[j], c.mem) {
      assert ThreadOk(ref, ops, entrants, j, p.threads[j], p.mem);
      if ops[j].BookTicket? && Wrote(PcOf(p.threads[j])) {
        SeatsOnlyFill(ref, ops[i], d, ops[j].matchId, ops[j].seatId);
      }
    }
  }

  lemma DoorsStayFair(ref: Roster, locked: bool, ops: seq<Op>, p: Process, entrants: seq<nat>, a: Action)
    requires Fair(ref, ops, p, entrants) && Enabled(locked, p, a) && !a.Step?
    ensures Fair(ref, ops, Next(ref, locked, ops, p, a), entrants)
  {
    var p' := Next(ref, locked, ops, p, a);
    forall j | 0 <= j < |ops| ensures ThreadOk(ref, ops, entrants, j, p'.threads[j], p'.mem) {
      assert ThreadOk(ref, ops, entrants, j, p.threads[j], p.mem);
      assert PcOf(p'.threads[j]) == PcOf(p.threads[j]);
    }
  }

  lemma {:induction false} AlwaysFair(ref: Roster, locked: bool, ops: seq<Op>, trace: seq<Action>)
    ensures Fair(ref, ops, Run(ref, locked, ops, trace), Entrants(ref, locked, ops, trace))
  {
    if trace == [] {
      assert Semantics.MatchOf(EMPTY_BUCKETS, "") == Semantics.EMPTY_MATCH;
    } else {
      var init, a := trace[..|trace| - 1], trace[|trace| - 1];
      AlwaysFair(ref, locked, ops, init);
      FairStep(ref, locked, ops, Run(ref, locked, ops, init), Entrants(ref, locked, ops, init), a);
    }
  }

  lemma FairStep(ref: Roster, locked: bool, ops: seq<Op>, p: Process, entrants: seq<nat>, a: Action)
    requires Fair(ref, ops, p, entrants)
    ensures Fair(ref, ops, Next(ref, locked, ops, p, a), entrants + (if Enters(locked, p, a) then [a.who] else []))
  {
    assert entrants + [] == entrants;
    if Enters(locked, p, a) {
      EnterKeeps(ref, ops, p, entrants, a.who);
    } else if a.Step? && Enabled(locked, p, a) {
      StepStaysFair(ref, locked, ops, p, entrants, a.who);
    } else if Enabled(locked, p, a) {
      DoorsStayFair(ref, locked, ops, p, entrants, a);
    }
  }

  /**
   * What threads without the lock still keep. A seat somebody was told is theirs is never missing, and every stored
   * owner is the actor of a request that had entered the dispatcher.
   */
  lemma {:induction false} SeatsNeverVanish(ref: Roster, locked: bool, ops: seq<Op>, trace: seq<Action>)
    ensures var p := Run(ref, locked, ops, trace);
            && (forall i :: 0 <= i < |ops| && ops[i].BookTicket? && Wrote(PcOf(p.threads[i])) ==>
                  Histories.OwnerOf(p.mem.state.buckets, ops[i].matchId, ops[i].seatId).Some?)
            && (forall m, seat :: Histories.OwnerOf(p.mem.state.buckets, m, seat).Some? ==>
                  Entered(ops, Entrants(ref, locked, ops, trace),
                          Histories.OwnerOf(p.mem.state.buckets, m, seat).value))
  {
    AlwaysFair(ref, locked, ops, trace);
    var p := Run(ref, locked, ops, trace);
    forall i | 0 <= i < |ops| && ops[i].BookTicket? && Wrote(PcOf(p.threads[i]))
      ensures Histories.OwnerOf(p.mem.state.buckets, ops[i].matchId, ops[i].seatId).Some?
    {
      assert ThreadOk(ref, ops, Entrants(ref, locked, ops, trace), i, p.threads[i], p.mem);
    }
  }

  // ---- Venues nobody knows -------------------------------------------------

  predicate NamesVenue(op: Op, v: string) {
    (op.BookVenueSlot? && op.venueId == v) || (op.ReleaseVenueSlot? && op.venueId == v)
  }

  lemma MicroVenues(ref: Roster, op: Op, c: Config)
    requires !op.BookVenueSlot? && !op.ReleaseVenueSlot?
    ensures Micro(ref, op, c).mem.state.buckets.venues == c.mem.state.buckets.venues
  {
  }

  /** Where a request for an unknown venue can be: not at a step that writes one. */
  predicate BeforeWriting(pc: Pc) { pc.Enter? || pc.Begin? || pc.Deny? || Terminal(pc) }

  lemma VenueStaysUnknown(ref: Roster, op: Op, c: Config, v: string)
    requires v !in ref.venues && v !in c.mem.state.buckets.venues && (NamesVenue(op, v) ==> BeforeWriting(c.pc))
    ensures v !in Micro(ref, op, c).mem.state.buckets.venues
    ensures NamesVenue(op, v) ==> BeforeWriting(Micro(ref, op, c).pc)
  {
    match op {
      case BookVenueSlot(v', m) => BookingStaysOut(ref, v', m, c.pc, c.mem, v);
      case ReleaseVenueSlot(v') => ReleaseStaysOut(v', c.pc, c.mem, v);
      case _ => MicroVenues(ref, op, c);
    }
  }

  lemma BookingStaysOut(ref: Roster, v': string, m: string, pc: Pc, mem: Memory, v: string)
    requires v !in ref.venues && v !in mem.state.buckets.venues && (v' == v ==> BeforeWriting(pc))
    ensures var c := MonolithThreads.BookVenueSlot(ref, v', m, pc, mem);
            v !in c.mem.state.buckets.venues && (v' == v && Live(pc) ==> BeforeWriting(c.pc))
  {
  }

  lemma ReleaseStaysOut(v': string, pc: Pc, mem: Memory, v: string)
    requires v !in mem.state.buckets.venues && (v' == v ==> BeforeWriting(pc))
    ensures var c := MonolithThreads.ReleaseVenueSlot(v', pc, mem);
            v !in c.mem.state.buckets.venues && (v' == v && Live(pc) ==> BeforeWriting(c.pc))
  {
  }

  /** In every run, with the lock or without it and at every moment, a venue outside the roster has no entry at all. */
  lemma {:induction false} UnknownVenueNeverFiled(ref: Roster, locked: bool, ops: seq<Op>, trace: seq<Action>,
                                                  v: string)
    requires v !in ref.venues
    ensures v !in Run(ref, locked, ops, trace).mem.state.buckets.venues
    ensures forall i :: 0 <= i < |ops| && NamesVenue(ops[i], v) ==>
              BeforeWriting(PcOf(Run(ref, locked, ops, trace).threads[i]))
  {
    if trace != [] {
      var init, a := trace[..|trace| - 1], trace[|trace| - 1];
      UnknownVenueNeverFiled(ref, locked, ops, init, v);
      var p := Run(ref, locked, ops, init);
      if a.Step? && Enabled(locked, p, a) {
        VenueStaysUnknown(ref, ops[a.who], At(p.threads[a.who].pc, p.mem), v);
      }
    }
  }

  /** A poisoned request takes every other one down with it: after an abort nothing in the process moves again. */
  lemma {:induction false} DeathIsFinal(ref: Roster, locked: bool, ops: seq<Op>, trace: seq<Action>, more: seq<Action>)
    requires !Run(ref, locked, ops, trace).alive
    ensures Run(ref, locked, ops, trace + more) == Run(ref, locked, ops, trace)
  {
    if more == [] {
      assert trace + more == trace;
    } else {
      DeathIsFinal(ref, locked, ops, trace, more[..|more| - 1]);
      assert (trace + more)[..|trace + more| - 1] == trace + more[..|more| - 1];
    }
  }
}
