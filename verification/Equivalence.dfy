/** The two implementations side by side: the core's dictionary and the monolith's globals under the same requests. */
module Equivalence {
  import opened Domain
  import Semantics
  import DeliveryLog
  import Operations
  import Monolith

  /** The same nine buckets and the same deliveries in the same order. Other log entries may differ. */
  ghost predicate Alike(core: Operations.StateDict, server: Monolith.Server)
    reads core, server
  {
    && core.Buckets() == server.Globals()
    && DeliveryLog.OnlyDeliveries(core.log) == DeliveryLog.OnlyDeliveries(server.log)
  }

  lemma SameFanOut(ref: Roster, op: Op, b: Buckets, coreLog: seq<LogEntry>, serverLog: seq<LogEntry>)
    requires DeliveryLog.OnlyDeliveries(coreLog) == DeliveryLog.OnlyDeliveries(serverLog)
    ensures DeliveryLog.OnlyDeliveries(coreLog + Semantics.Apply(ref, op, b).entries) ==
            DeliveryLog.OnlyDeliveries(serverLog + Monolith.Entries(ref, op, b))
  {
    DeliveryLog.OnlyDeliveriesSplits(coreLog, Semantics.Apply(ref, op, b).entries);
    DeliveryLog.OnlyDeliveriesSplits(serverLog, Monolith.Entries(ref, op, b));
    DeliveryLog.CoreFanOut(ref, op, b);
    Monolith.MonolithFanOut(ref, op, b);
  }

  /** One request served on both sides: alike before, alike after, and the same reply. */
  method ServeBoth(ref: Roster, op: Op, core: Operations.StateDict, server: Monolith.Server)
    returns (coreReply: Option<Result>, serverReply: Option<Result>)
    requires Alike(core, server)
    modifies core, server
    ensures Alike(core, server) && coreReply == serverReply
    ensures coreReply.None? <==> Semantics.Aborts(op)
  {
    SameFanOut(ref, op, core.Buckets(), core.log, server.log);
    Semantics.OnlyAbortsAreSilent(ref, op, core.Buckets());
    coreReply := core.Invoke(ref, op);
    serverReply := server.Dispatch(ref, op);
  }

  /**
   * Any workload on a fresh core and a fresh monolith, up to the first request that aborts: equal replies one by one,
   * equal buckets and equal deliveries at the end.
   */
  method RunBoth(ref: Roster, events: seq<Op>)
    returns (core: Operations.StateDict, server: Monolith.Server, coreReplies: seq<Option<Result>>,
             serverReplies: seq<Option<Result>>)
    ensures fresh(core) && fresh(server) && Alike(core, server) && coreReplies == serverReplies
    ensures |coreReplies| <= |events|
    ensures forall i :: 0 <= i < |coreReplies| ==>
              (coreReplies[i].None? <==> i + 1 == |coreReplies| && Semantics.Aborts(events[i]))
    ensures |coreReplies| < |events| ==> coreReplies != [] && coreReplies[|coreReplies| - 1].None?
  {
    core := new Operations.StateDict.FromBlob(INITIAL);
    server := new Monolith.Server();
    coreReplies, serverReplies := [], [];
    for i := 0 to |events|
      invariant fresh(core) && fresh(server) && Alike(core, server)
      invariant coreReplies == serverReplies && |coreReplies| == i
      invariant forall k :: 0 <= k < i ==> coreReplies[k].Some? && !Semantics.Aborts(events[k])
    {
      var coreReply, serverReply := ServeBoth(ref, events[i], core, server);
      coreReplies, serverReplies := coreReplies + [coreReply], serverReplies + [serverReply];
      if coreReply.None? { return; }
    }
  }
}
