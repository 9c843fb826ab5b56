/** Pushing an event while others subscribe: what a push that found no list of subscribers does. */
module LateSubscribers {
  import opened Domain
  import opened MonolithThreads
  import opened ThreadedServer
  import SeatOwners

  /** Whether push i found a list of subscribers when it looked for one, once it has looked. */
  function FoundList(ref: Roster, locked: bool, ops: seq<Op>, trace: seq<Action>, i: nat): Option<bool>
    requires i < |ops| && ops[i].PushLiveEvent?
  {
    if trace == [] then None
    else
      var init, a := trace[..|trace| - 1], trace[|trace| - 1];
      var p := Run(ref, locked, ops, init);
      if a == Step(i) && Enabled(locked, p, a) && p.threads[i].pc.FindSubscribers? then
        Some(ops[i].matchId in p.mem.state.buckets.subscriptions)
      else FoundList(ref, locked, ops, init, i)
  }

  /** Where a push can be, by what it found. */
  predicate OnCourse(op: Op, pc: Pc, found: Option<bool>)
    requires op.PushLiveEvent?
  {
    match found
    case None => pc.Enter? || pc.Begin? || pc.Mark? || pc.FindSubscribers?
    case Some(live) =>
      || ((pc.Deliver? || pc.Record? || pc.ReadBack?) && pc.live == live)
      || (live && pc.Send?)
      || (live && pc.Return? && pc.reply.Pushed? && pc.reply.message == PushedFor(op.eventType, op.matchId))
      || (!live && pc == Return(Pushed(true, PushedFor(op.eventType, op.matchId), 0)))
  }

  lemma StaysOnCourse(ref: Roster, op: Op, c: Config, found: Option<bool>)
    requires op.PushLiveEvent? && OnCourse(op, c.pc, found) && !Terminal(c.pc)
    ensures OnCourse(op, Micro(ref, op, c).pc,
                     if c.pc.FindSubscribers? then Some(op.matchId in c.mem.state.buckets.subscriptions) else found)
  {
  }

  lemma {:induction false} AlwaysOnCourse(ref: Roster, locked: bool, ops: seq<Op>, trace: seq<Action>, i: nat)
    requires i < |ops| && ops[i].PushLiveEvent?
    ensures OnCourse(ops[i], PcOf(Run(ref, locked, ops, trace).threads[i]), FoundList(ref, locked, ops, trace, i))
  {
    if trace != [] {
      var init, a := trace[..|trace| - 1], trace[|trace| - 1];
      var p := Run(ref, locked, ops, init);
      AlwaysOnCourse(ref, locked, ops, init, i);
      SeatOwners.PcMoves(ref, locked, ops, p, a, i);
      if a == Step(i) && Enabled(locked, p, a) {
        StaysOnCourse(ref, ops[i], At(p.threads[i].pc, p.mem), FoundList(ref, locked, ops, init, i));
      }
    }
  }

  /**
   * In every run, a push that found nobody subscribed delivers to nobody and reports nobody, even if others subscribe
   * before it ends: it iterates over a list of its own.
   */
  lemma {:induction false} FoundNobody(ref: Roster, locked: bool, ops: seq<Op>, trace: seq<Action>, i: nat)
    requires i < |ops| && ops[i].PushLiveEvent? && FoundList(ref, locked, ops, trace, i) == Some(false)
    ensures var pc := PcOf(Run(ref, locked, ops, trace).threads[i]);
            && !pc.Send?
            && (Terminal(pc) ==> pc == Return(Pushed(true, PushedFor(ops[i].eventType, ops[i].matchId), 0)))
  {
    AlwaysOnCourse(ref, locked, ops, trace, i);
  }
}
