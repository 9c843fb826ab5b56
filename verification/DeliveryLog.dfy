/** The deliveries recorded in a log, and the ones each operation records. */
module DeliveryLog {
  import opened Domain
  import Semantics

  /** The deliveries in a log, in order. */
  function OnlyDeliveries(log: seq<LogEntry>): seq<LogEntry> {
    if log == [] then []
    else OnlyDeliveries(log[..|log| - 1]) + (if log[|log| - 1].Delivery? then [log[|log| - 1]] else [])
  }

  lemma {:induction false} OnlyDeliveriesSplits(a: seq<LogEntry>, b: seq<LogEntry>)
    ensures OnlyDeliveries(a + b) == OnlyDeliveries(a) + OnlyDeliveries(b)
  {
    if b == [] {
      assert a + b == a;
    } else {
      OnlyDeliveriesSplits(a, b[..|b| - 1]);
      assert (a + b)[..|a + b| - 1] == a + b[..|b| - 1];
    }
  }

  lemma {:induction false} DeliveriesKept(topic: string, subs: seq<string>, eventType: string)
    ensures OnlyDeliveries(Semantics.Deliveries(topic, subs, eventType)) == Semantics.Deliveries(topic, subs, eventType)
  {
    if subs != [] {
      var all := Semantics.Deliveries(topic, subs, eventType);
      DeliveriesKept(topic, subs[..|subs| - 1], eventType);
      assert all[..|all| - 1] == Semantics.Deliveries(topic, subs[..|subs| - 1], eventType);
    }
  }

  /** Deliveries a request makes: one per current subscriber for a push or a go-live, none otherwise. */
  function FanOut(op: Op, b: Buckets): seq<LogEntry> {
    match op
    case PushLiveEvent(m, eventType, _) => Semantics.Deliveries(m, Semantics.SubscribersOf(b, m), eventType)
    case GoLive(m, _, _) => Semantics.Deliveries(m, Semantics.SubscribersOf(b, m), "live")
    case _ => []
  }

  lemma {:induction false} CoreFanOut(ref: Roster, op: Op, b: Buckets)
    ensures OnlyDeliveries(Semantics.Apply(ref, op, b).entries) == FanOut(op, b)
  {
    match op {
      case PushLiveEvent(m, eventType, details) => PushFanOut(b, m, eventType, GetOr(details, ""));
      case GoLive(m, stream, details) => GoLiveFanOut(b, m, stream, GetOr(details, "match is live"));
      case _ => OneNote(ref, op, b);
    }
  }

  lemma PushFanOut(b: Buckets, m: string, eventType: string, details: string)
    ensures OnlyDeliveries(Semantics.PushLiveEvent(b, m, eventType, details).entries)
         == Semantics.Deliveries(m, Semantics.SubscribersOf(b, m), eventType)
  {
    var subs := Semantics.SubscribersOf(b, m);
    var entries := Semantics.PushLiveEvent(b, m, eventType, details).entries;
    assert entries == Semantics.Deliveries(m, subs, eventType) + entries[|subs|..];
    FanOutThen(m, subs, eventType, entries[|subs|..]);
  }

  lemma GoLiveFanOut(b: Buckets, m: string, stream: string, details: string)
    ensures OnlyDeliveries(Semantics.GoLive(b, m, stream, details).entries)
         == Semantics.Deliveries(m, Semantics.SubscribersOf(b, m), "live")
  {
    var rest := StageNotes(b, m, stream);
    GoLiveEntries(b, m, stream, details);
    OnlyDeliveriesSplits(Semantics.PushLiveEvent(b, m, "live", details).entries, rest);
    PushFanOut(b, m, "live", details);
    NothingKept(rest);
  }

  /** What the cascade logs after its announcement. */
  function StageNotes(b: Buckets, m: string, stream: string): seq<LogEntry> {
    [StreamAllocated(stream, m), StandingsRecomputed(|b.countryScores.order|), WentLive(m, stream)]
  }

  lemma GoLiveEntries(b: Buckets, m: string, stream: string, details: string)
    ensures Semantics.GoLive(b, m, stream, details).entries ==
            Semantics.PushLiveEvent(b, m, "live", details).entries + StageNotes(b, m, stream)
  {
  }

  predicate NoDelivery(log: seq<LogEntry>) {
    forall i :: 0 <= i < |log| ==> !log[i].Delivery?
  }

  lemma {:induction false} NothingKept(log: seq<LogEntry>)
    requires NoDelivery(log)
    ensures OnlyDeliveries(log) == []
  {
    if log != [] { NothingKept(log[..|log| - 1]); }
  }

  lemma OneNote(ref: Roster, op: Op, b: Buckets)
    requires !op.PushLiveEvent? && !op.GoLive?
    ensures OnlyDeliveries(Semantics.Apply(ref, op, b).entries) == []
  {
    var entries := Semantics.Apply(ref, op, b).entries;
    assert |entries| <= 1;
    assert NoDelivery(entries);
    NothingKept(entries);
  }

  lemma FanOutThen(m: string, subs: seq<string>, eventType: string, rest: seq<LogEntry>)
    requires NoDelivery(rest)
    ensures OnlyDeliveries(Semantics.Deliveries(m, subs, eventType) + rest) == Semantics.Deliveries(m, subs, eventType)
  {
    OnlyDeliveriesSplits(Semantics.Deliveries(m, subs, eventType), rest);
    DeliveriesKept(m, subs, eventType);
    NothingKept(rest);
  }
}
