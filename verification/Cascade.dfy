/**
 * Going live as three separate invocations, with other requests in between or crashes and retries, against the atomic
 * operation.
 */
module Cascade {
  import opened Domain
  import Semantics
  import Standings
  import DeliveryLog
  import FaasProtocol

  function Announce(m: string): Op { PushLiveEvent(m, "live", Some("match is live")) }

  /** The three calls of `go_live_chain`, in order. */
  function Chain(m: string, stream: string): (calls: seq<Op>)
    ensures |calls| == 3
  {
    [Announce(m), AllocateStream(stream, m), RecomputeStandings]
  }

  /** The buckets after running requests one at a time from b. */
  function RunFrom(ref: Roster, b: Buckets, ops: seq<Op>): Buckets {
    if ops == [] then b
    else Semantics.Apply(ref, ops[|ops| - 1], RunFrom(ref, b, ops[..|ops| - 1])).buckets
  }

  function ReplyFrom(ref: Roster, b: Buckets, ops: seq<Op>, k: nat): Option<Result>
    requires k < |ops|
  {
    Semantics.Apply(ref, ops[k], RunFrom(ref, b, ops[..k])).reply
  }

  lemma {:induction false} RunFromSplits(ref: Roster, b: Buckets, ops: seq<Op>, more: seq<Op>)
    ensures RunFrom(ref, b, ops + more) == RunFrom(ref, RunFrom(ref, b, ops), more)
  {
    if more == [] {
      assert ops + more == ops;
    } else {
      RunFromSplits(ref, b, ops, more[..|more| - 1]);
      assert (ops + more)[..|ops + more| - 1] == ops + more[..|more| - 1];
    }
  }

  lemma {:induction false} ReplayIsRun(ref: Roster, ops: seq<Op>)
    ensures Semantics.Replay(ref, ops).buckets == RunFrom(ref, EMPTY_BUCKETS, ops)
  {
    if ops != [] { ReplayIsRun(ref, ops[..|ops| - 1]); }
  }

  // ---- What nobody's reply depends on --------------------------------------

  const BLANK := Stream("", "")

  /** The buckets with match m's status, the stream and the standings blotted out. */
  function Mask(b: Buckets, m: string, stream: string): Buckets {
    b.(matches := b.matches[m := Semantics.MatchOf(b, m).(status := None)],
       streams := b.streams[stream := BLANK],
       standings := None)
  }

  predicate TouchesMasked(op: Op) {
    op.BookTicket? || op.PushLiveEvent? || op.GoLive? || op.AllocateStream? || op.RecomputeStandings?
  }

  /** b with another three buckets that the mask touches. */
  function Beside(b: Buckets, c: Buckets): Buckets {
    b.(matches := c.matches, streams := c.streams, standings := c.standings)
  }

  /** A request that neither reads nor writes those three. */
  ghost predicate Independent(ref: Roster, op: Op, b: Buckets, c: Buckets) {
    var e, f := Semantics.Apply(ref, op, b), Semantics.Apply(ref, op, Beside(b, c));
    f.reply == e.reply && f.buckets == Beside(e.buckets, c) && Beside(e.buckets, b) == e.buckets
  }

  lemma BookingIndependent(ref: Roster, op: Op, b: Buckets, c: Buckets)
    requires op.BookVenueSlot?
    ensures Independent(ref, op, b, c)
  {
  }

  lemma ReleaseIndependent(ref: Roster, op: Op, b: Buckets, c: Buckets)
    requires op.ReleaseVenueSlot?
    ensures Independent(ref, op, b, c)
  {
  }

  lemma VolunteersIndependent(ref: Roster, op: Op, b: Buckets, c: Buckets)
    requires op.AssignVolunteer?
    ensures Independent(ref, op, b, c)
  {
  }

  lemma TablesIndependent(ref: Roster, op: Op, b: Buckets, c: Buckets)
    requires op.ReserveRestaurantTable?
    ensures Independent(ref, op, b, c)
  {
  }

  lemma ShuttlesIndependent(ref: Roster, op: Op, b: Buckets, c: Buckets)
    requires op.DispatchShuttle?
    ensures Independent(ref, op, b, c)
  {
    ShuttleIndependent(op.shuttleId, op.route, BoardingOf(op), CapacityOf(op), b, Beside(b, c));
  }

  lemma ShuttleIndependent(id: string, route: string, boarding: int, capacity: int, b: Buckets, d: Buckets)
    requires d.shuttles == b.shuttles
    ensures var e := Semantics.DispatchShuttle(b, id, route, boarding, capacity);
            var f := Semantics.DispatchShuttle(d, id, route, boarding, capacity);
            f.reply == e.reply && f.buckets.shuttles == e.buckets.shuttles
  {
    Semantics.DispatchOf(b, id, route, boarding, capacity);
    Semantics.DispatchOf(d, id, route, boarding, capacity);
  }

  lemma ScoresIndependent(ref: Roster, op: Op, b: Buckets, c: Buckets)
    requires op.UpdateCountryScore?
    ensures Independent(ref, op, b, c)
  {
  }

  lemma OthersIndependent(ref: Roster, op: Op, b: Buckets, c: Buckets)
    requires op.SubscribeToUpdates? || op.ProjectMedals? || op.RenderHighlight?
    ensures Independent(ref, op, b, c)
  {
  }

  lemma MaskElsewhere(ref: Roster, op: Op, b: Buckets, m: string, stream: string)
    requires !TouchesMasked(op)
    ensures var e, f := Semantics.Apply(ref, op, b), Semantics.Apply(ref, op, Mask(b, m, stream));
            e.reply == f.reply && Mask(e.buckets, m, stream) == Mask(f.buckets, m, stream)
  {
    var c := Mask(b, m, stream);
    assert c == Beside(b, c);
    match op {
      case BookVenueSlot(_, _) => BookingIndependent(ref, op, b, c);
      case ReleaseVenueSlot(_) => ReleaseIndependent(ref, op, b, c);
      case AssignVolunteer(_, _) => VolunteersIndependent(ref, op, b, c);
      case ReserveRestaurantTable(_, _, _) => TablesIndependent(ref, op, b, c);
      case DispatchShuttle(_, _, _, _) => ShuttlesIndependent(ref, op, b, c);
      case UpdateCountryScore(_, _) => ScoresIndependent(ref, op, b, c);
      case _ => OthersIndependent(ref, op, b, c);
    }
    MaskIdempotent(Semantics.Apply(ref, op, b).buckets, b, m, stream);
  }

  lemma MaskIdempotent(e: Buckets, b: Buckets, m: string, stream: string)
    requires e == Beside(e, b)
    ensures Mask(Beside(e, Mask(b, m, stream)), m, stream) == Mask(e, m, stream)
  {
    var f := Beside(e, Mask(b, m, stream));
    assert Mask(f, m, stream).matches == Mask(e, m, stream).matches;
    assert Mask(f, m, stream).streams == Mask(e, m, stream).streams;
  }

  lemma MaskSeats(b: Buckets, m: string, stream: string, m': string)
    ensures Semantics.MatchOf(Mask(b, m, stream), m').seats == Semantics.MatchOf(b, m').seats
    ensures Semantics.MatchOf(Mask(b, m, stream), m').(status := None) == Semantics.MatchOf(b, m').(status := None)
    ensures m' != m ==> Semantics.MatchOf(Mask(b, m, stream), m') == Semantics.MatchOf(b, m')
  {
  }

  /** A match entry written on both sides with the same seats looks the same behind the mask. */
  lemma MaskEntry(b: Buckets, m: string, stream: string, m': string, x: Match, y: Match)
    requires x.(status := None) == y.(status := None) && (m' != m ==> x == y)
    ensures Mask(b.(matches := b.matches[m' := x]), m, stream) ==
            Mask(Mask(b, m, stream).(matches := Mask(b, m, stream).matches[m' := y]), m, stream)
  {
    var c := Mask(b, m, stream);
    var e, f := b.(matches := b.matches[m' := x]), c.(matches := c.matches[m' := y]);
    EntriesBlotted(b.matches, m, m', x, y);
    assert Mask(e, m, stream).matches == Mask(f, m, stream).matches;
    assert c.streams[stream := BLANK] == c.streams;
  }

  function Blot(matches: map<string, Match>, m: string): map<string, Match> {
    matches[m := (if m in matches then matches[m] else Semantics.EMPTY_MATCH).(status := None)]
  }

  lemma EntriesBlotted(matches: map<string, Match>, m: string, m': string, x: Match, y: Match)
    requires x.(status := None) == y.(status := None) && (m' != m ==> x == y)
    ensures Blot(matches[m' := x], m) == Blot(Blot(matches, m)[m' := y], m)
  {
  }

  lemma MaskTicket(ref: Roster, m': string, seat: string, user: string, b: Buckets, m: string, stream: string)
    ensures var e := Semantics.BookTicket(ref, b, m', seat, user);
            var f := Semantics.BookTicket(ref, Mask(b, m, stream), m', seat, user);
            e.reply == f.reply && Mask(e.buckets, m, stream) == Mask(f.buckets, m, stream)
  {
    var x, y := Semantics.MatchOf(b, m'), Semantics.MatchOf(Mask(b, m, stream), m');
    MaskSeats(b, m, stream, m');
    if user !in ref.users {
      MaskIdempotent(b, b, m, stream);
    } else if seat in x.seats {
      MaskEntry(b, m, stream, m', x, y);
    } else {
      MaskEntry(b, m, stream, m', x.(seats := x.seats[seat := user]), y.(seats := y.seats[seat := user]));
    }
  }

  lemma MaskStatus(m': string, status: string, b: Buckets, m: string, stream: string)
    ensures Mask(Semantics.SetStatus(b, m', status), m, stream)
         == Mask(Semantics.SetStatus(Mask(b, m, stream), m', status), m, stream)
  {
    var x, y := Semantics.MatchOf(b, m'), Semantics.MatchOf(Mask(b, m, stream), m');
    MaskSeats(b, m, stream, m');
    MaskEntry(b, m, stream, m', x.(status := Some(status)), y.(status := Some(status)));
  }

  lemma MaskStream(s: string, m': string, b: Buckets, m: string, stream: string)
    ensures Mask(Semantics.AllocateStream(b, s, m').buckets, m, stream)
         == Mask(Semantics.AllocateStream(Mask(b, m, stream), s, m').buckets, m, stream)
  {
    var e, f := Semantics.AllocateStream(b, s, m').buckets, Semantics.AllocateStream(Mask(b, m, stream), s, m').buckets;
    assert Mask(e, m, stream).streams == Mask(f, m, stream).streams;
  }

  lemma MaskGoLive(m': string, s: string, details: string, b: Buckets, m: string, stream: string)
    ensures Mask(Semantics.GoLive(b, m', s, details).buckets, m, stream)
         == Mask(Semantics.GoLive(Mask(b, m, stream), m', s, details).buckets, m, stream)
  {
    MaskStatus(m', "live", b, m, stream);
    MaskStream(s, m', b, m, stream);
  }

  /** No request's reply, and nothing else it leaves behind, depends on what the mask hides. */
  lemma {:induction false} MaskStep(ref: Roster, op: Op, b: Buckets, m: string, stream: string)
    ensures Semantics.Apply(ref, op, b).reply == Semantics.Apply(ref, op, Mask(b, m, stream)).reply
    ensures Mask(Semantics.Apply(ref, op, b).buckets, m, stream)
         == Mask(Semantics.Apply(ref, op, Mask(b, m, stream)).buckets, m, stream)
  {
    if op.BookTicket? || op.PushLiveEvent? {
      MaskMatches(ref, op, b, m, stream);
    } else if TouchesMasked(op) {
      MaskStreams(ref, op, b, m, stream);
    } else {
      MaskElsewhere(ref, op, b, m, stream);
    }
  }

  lemma MaskMatches(ref: Roster, op: Op, b: Buckets, m: string, stream: string)
    requires op.BookTicket? || op.PushLiveEvent?
    ensures var e, f := Semantics.Apply(ref, op, b), Semantics.Apply(ref, op, Mask(b, m, stream));
            e.reply == f.reply && Mask(e.buckets, m, stream) == Mask(f.buckets, m, stream)
  {
    match op {
      case BookTicket(m', seat, user) => MaskTicket(ref, m', seat, user, b, m, stream);
      case PushLiveEvent(m', e, details) => MaskStatus(m', e, b, m, stream);
    }
  }

  lemma MaskStreams(ref: Roster, op: Op, b: Buckets, m: string, stream: string)
    requires op.GoLive? || op.AllocateStream? || op.RecomputeStandings?
    ensures var e, f := Semantics.Apply(ref, op, b), Semantics.Apply(ref, op, Mask(b, m, stream));
            e.reply == f.reply && Mask(e.buckets, m, stream) == Mask(f.buckets, m, stream)
  {
    match op {
      case GoLive(m', s, details) => MaskGoLive(m', s, GetOr(details, "match is live"), b, m, stream);
      case AllocateStream(s, m') => MaskStream(s, m', b, m, stream);
      case RecomputeStandings => MaskIdempotent(b, b, m, stream);
    }
  }

  lemma {:induction false} MaskRun(ref: Roster, b: Buckets, c: Buckets, ops: seq<Op>, m: string, stream: string)
    requires Mask(b, m, stream) == Mask(c, m, stream)
    ensures Mask(RunFrom(ref, b, ops), m, stream) == Mask(RunFrom(ref, c, ops), m, stream)
  {
    if ops != [] {
      var n := |ops| - 1;
      MaskRun(ref, b, c, ops[..n], m, stream);
      MaskStep(ref, ops[n], RunFrom(ref, b, ops[..n]), m, stream);
      MaskStep(ref, ops[n], RunFrom(ref, c, ops[..n]), m, stream);
    }
  }

  lemma SameReplies(ref: Roster, b: Buckets, c: Buckets, ops: seq<Op>, m: string, stream: string, k: nat)
    requires Mask(b, m, stream) == Mask(c, m, stream) && k < |ops|
    ensures ReplyFrom(ref, b, ops, k) == ReplyFrom(ref, c, ops, k)
  {
    MaskRun(ref, b, c, ops[..k], m, stream);
    MaskStep(ref, ops[k], RunFrom(ref, b, ops[..k]), m, stream);
    MaskStep(ref, ops[k], RunFrom(ref, c, ops[..k]), m, stream);
  }

  /** The calls of the chain and the atomic operation do nothing the mask does not hide. */
  lemma HiddenCalls(b: Buckets, m: string, stream: string)
    ensures Mask(Semantics.SetStatus(b, m, "live"), m, stream) == Mask(b, m, stream)
    ensures Mask(Semantics.AllocateStream(b, stream, m).buckets, m, stream) == Mask(b, m, stream)
    ensures Mask(Semantics.RecomputeStandings(b).buckets, m, stream) == Mask(b, m, stream)
  {
    var e, f := Semantics.SetStatus(b, m, "live"), Semantics.AllocateStream(b, stream, m).buckets;
    assert Mask(e, m, stream).matches == Mask(b, m, stream).matches;
    assert Mask(f, m, stream).streams == Mask(b, m, stream).streams;
  }

  lemma HiddenGoLive(b: Buckets, m: string, stream: string, details: string)
    ensures Mask(Semantics.GoLive(b, m, stream, details).buckets, m, stream) == Mask(b, m, stream)
  {
    var g := Semantics.GoLive(b, m, stream, details).buckets;
    assert Mask(g, m, stream).matches == Mask(b, m, stream).matches;
    assert Mask(g, m, stream).streams == Mask(b, m, stream).streams;
  }

  // ---- Who wrote the status and the stream last ----------------------------

  predicate SetsStatus(op: Op, m: string) { (op.PushLiveEvent? || op.GoLive?) && op.matchId == m }
  predicate Allocates(op: Op, stream: string) { (op.AllocateStream? || op.GoLive?) && op.streamId == stream }

  /** The status these requests leave match m with, if they set it at all. */
  function LastStatus(ops: seq<Op>, m: string): Option<string> {
    if ops == [] then None
    else
      var last := ops[|ops| - 1];
      if SetsStatus(last, m) then Some(if last.PushLiveEvent? then last.eventType else "live")
      else LastStatus(ops[..|ops| - 1], m)
  }

  /** The match these requests leave the stream allocated to, if they allocate it at all. */
  function LastMatch(ops: seq<Op>, stream: string): Option<string> {
    if ops == [] then None
    else
      var last := ops[|ops| - 1];
      if Allocates(last, stream) then Some(last.matchId) else LastMatch(ops[..|ops| - 1], stream)
  }

  predicate HasStatus(b: Buckets, m: string, status: string) { m in b.matches && b.matches[m].status == Some(status) }
  predicate OnAir(b: Buckets, stream: string, m: string) {
    stream in b.streams && b.streams[stream] == Stream(m, "on_air")
  }

  lemma TicketKeepsStatus(ref: Roster, b: Buckets, m': string, seat: string, user: string, m: string, status: string)
    requires HasStatus(b, m, status)
    ensures HasStatus(Semantics.BookTicket(ref, b, m', seat, user).buckets, m, status)
  {
  }

  lemma StatusStep(ref: Roster, op: Op, b: Buckets, m: string, status: string)
    requires HasStatus(b, m, status)
    ensures HasStatus(Semantics.Apply(ref, op, b).buckets, m,
                      if !SetsStatus(op, m) then status else if op.PushLiveEvent? then op.eventType else "live")
  {
    Semantics.TouchesMatches(ref, op, b);
    match op {
      case BookTicket(m', seat, user) => TicketKeepsStatus(ref, b, m', seat, user, m, status);
      case PushLiveEvent(m', e, d) =>
      case GoLive(m', s, d) =>
      case _ =>
    }
  }

  lemma StreamStep(ref: Roster, op: Op, b: Buckets, stream: string, m: string)
    requires OnAir(b, stream, m)
    ensures OnAir(Semantics.Apply(ref, op, b).buckets, stream, if Allocates(op, stream) then op.matchId else m)
  {
    Semantics.TouchesStreams(ref, op, b);
    match op {
      case AllocateStream(s, m') =>
      case GoLive(m', s, d) =>
      case _ =>
    }
  }

  lemma {:induction false} StatusAfter(ref: Roster, b: Buckets, ops: seq<Op>, m: string, status: string)
    requires HasStatus(b, m, status)
    ensures HasStatus(RunFrom(ref, b, ops), m, GetOr(LastStatus(ops, m), status))
  {
    if ops != [] {
      var n := |ops| - 1;
      StatusAfter(ref, b, ops[..n], m, status);
      StatusStep(ref, ops[n], RunFrom(ref, b, ops[..n]), m, GetOr(LastStatus(ops[..n], m), status));
    }
  }

  lemma {:induction false} StreamAfter(ref: Roster, b: Buckets, ops: seq<Op>, stream: string, m: string)
    requires OnAir(b, stream, m)
    ensures OnAir(RunFrom(ref, b, ops), stream, GetOr(LastMatch(ops, stream), m))
  {
    if ops != [] {
      var n := |ops| - 1;
      StreamAfter(ref, b, ops[..n], stream, m);
      StreamStep(ref, ops[n], RunFrom(ref, b, ops[..n]), stream, GetOr(LastMatch(ops[..n], stream), m));
    }
  }

  /** Behind the mask there are only the status, the stream and the standings. */
  lemma MaskHidesThree(b: Buckets, c: Buckets, m: string, stream: string, s: string, t: string, x: string, y: string)
    requires Mask(b, m, stream) == Mask(c, m, stream)
    requires HasStatus(b, m, s) && HasStatus(c, m, t) && OnAir(b, stream, x) && OnAir(c, stream, y)
    requires b.standings == c.standings
    ensures b == c <==> s == t && x == y
  {
    if s == t && x == y {
      forall k ensures k in b.matches <==> k in c.matches
               ensures k in b.matches ==> b.matches[k] == c.matches[k]
      {
        var p, q := Mask(b, m, stream).matches, Mask(c, m, stream).matches;
        assert p == q;
        assert k in p <==> k in q;
        if k == m { assert p[m] == q[m]; } else if k in p { assert p[k] == q[k]; }
      }
      assert b.matches == c.matches;
      forall k ensures k in b.streams <==> k in c.streams
               ensures k in b.streams ==> b.streams[k] == c.streams[k]
      {
        var p, q := Mask(b, m, stream).streams, Mask(c, m, stream).streams;
        assert p == q;
        assert k in p <==> k in q;
        if k != stream && k in p { assert p[k] == q[k]; }
      }
      assert b.streams == c.streams;
      var p, q := Mask(b, m, stream), Mask(c, m, stream);
      assert p.(matches := b.matches, streams := b.streams, standings := b.standings) == b;
      assert q.(matches := c.matches, streams := c.streams, standings := c.standings) == c;
    }
  }

  // ---- The chain with others in between ------------------------------------

  /** The three calls, with f1 served between the first two and f2 between the last two. */
  function Interleaved(m: string, stream: string, f1: seq<Op>, f2: seq<Op>): seq<Op> {
    Opening(m, stream, f1) + f2 + [RecomputeStandings]
  }

  function Opening(m: string, stream: string, f1: seq<Op>): (ops: seq<Op>)
    ensures |ops| == |f1| + 2
  {
    [Announce(m)] + f1 + [AllocateStream(stream, m)]
  }

  /** The same others served first, then one atomic `go_live`. */
  function Atomic(m: string, stream: string, f1: seq<Op>, f2: seq<Op>): seq<Op> {
    f1 + f2 + [Op.GoLive(m, stream, None)]
  }

  lemma RunThen(ref: Roster, b: Buckets, ops: seq<Op>, op: Op)
    ensures RunFrom(ref, b, ops + [op]) == Semantics.Apply(ref, op, RunFrom(ref, b, ops)).buckets
  {
    assert (ops + [op])[..|ops|] == ops;
  }

  /** After the announcement, after f1, and after the allocation. */
  function Stage1(b: Buckets, m: string): Buckets { Semantics.SetStatus(b, m, "live") }
  function Stage2(ref: Roster, b: Buckets, m: string, f1: seq<Op>): Buckets { RunFrom(ref, Stage1(b, m), f1) }
  function Stage3(ref: Roster, b: Buckets, m: string, stream: string, f1: seq<Op>): Buckets {
    Semantics.AllocateStream(Stage2(ref, b, m, f1), stream, m).buckets
  }
  function Stage4(ref: Roster, b: Buckets, m: string, stream: string, f1: seq<Op>, f2: seq<Op>): Buckets {
    RunFrom(ref, Stage3(ref, b, m, stream, f1), f2)
  }

  lemma FirstStages(ref: Roster, b: Buckets, m: string, f1: seq<Op>)
    ensures RunFrom(ref, b, [Announce(m)]) == Stage1(b, m)
    ensures RunFrom(ref, b, [Announce(m)] + f1) == Stage2(ref, b, m, f1)
  {
    assert [] + [Announce(m)] == [Announce(m)];
    RunThen(ref, b, [], Announce(m));
    RunFromSplits(ref, b, [Announce(m)], f1);
  }

  lemma OpeningStage(ref: Roster, b: Buckets, m: string, stream: string, f1: seq<Op>)
    ensures RunFrom(ref, b, Opening(m, stream, f1)) == Stage3(ref, b, m, stream, f1)
  {
    FirstStages(ref, b, m, f1);
    RunThen(ref, b, [Announce(m)] + f1, AllocateStream(stream, m));
  }

  lemma LaterStages(ref: Roster, b: Buckets, m: string, stream: string, f1: seq<Op>, f2: seq<Op>)
    ensures RunFrom(ref, b, Interleaved(m, stream, f1, f2)) ==
            Semantics.RecomputeStandings(Stage4(ref, b, m, stream, f1, f2)).buckets
  {
    OpeningStage(ref, b, m, stream, f1);
    RunFromSplits(ref, b, Opening(m, stream, f1), f2);
    RunThen(ref, b, Opening(m, stream, f1) + f2, RecomputeStandings);
  }

  lemma AtomicMeans(ref: Roster, b: Buckets, m: string, stream: string)
    ensures Semantics.Apply(ref, Op.GoLive(m, stream, None), b) == Semantics.GoLive(b, m, stream, "match is live")
  {
  }

  lemma AtomicRun(ref: Roster, b: Buckets, m: string, stream: string, f1: seq<Op>, f2: seq<Op>)
    ensures RunFrom(ref, b, Atomic(m, stream, f1, f2)) ==
            Semantics.GoLive(RunFrom(ref, b, f1 + f2), m, stream, "match is live").buckets
  {
    RunThen(ref, b, f1 + f2, Op.GoLive(m, stream, None));
    AtomicMeans(ref, RunFrom(ref, b, f1 + f2), m, stream);
  }

  lemma StagesMasked(ref: Roster, b: Buckets, m: string, stream: string, f1: seq<Op>, f2: seq<Op>)
    ensures Mask(Stage1(b, m), m, stream) == Mask(b, m, stream)
    ensures Mask(Stage3(ref, b, m, stream, f1), m, stream) == Mask(RunFrom(ref, b, f1), m, stream)
    ensures Mask(Stage4(ref, b, m, stream, f1, f2), m, stream) == Mask(RunFrom(ref, b, f1 + f2), m, stream)
  {
    HiddenCalls(b, m, stream);
    MaskRun(ref, Stage1(b, m), b, f1, m, stream);
    HiddenCalls(Stage2(ref, b, m, f1), m, stream);
    MaskRun(ref, Stage3(ref, b, m, stream, f1), RunFrom(ref, b, f1), f2, m, stream);
    RunFromSplits(ref, b, f1, f2);
  }

  lemma StagesWritten(ref: Roster, b: Buckets, m: string, stream: string, f1: seq<Op>, f2: seq<Op>)
    ensures HasStatus(Stage4(ref, b, m, stream, f1, f2), m, GetOr(LastStatus(f1 + f2, m), "live"))
    ensures OnAir(Stage4(ref, b, m, stream, f1, f2), stream, GetOr(LastMatch(f2, stream), m))
  {
    StatusAfter(ref, Stage1(b, m), f1, m, "live");
    StatusAfter(ref, Stage3(ref, b, m, stream, f1), f2, m, GetOr(LastStatus(f1, m), "live"));
    LastStatusSplits(f1, f2, m);
    StreamAfter(ref, Stage3(ref, b, m, stream, f1), f2, stream, m);
  }

  lemma {:induction false} LastStatusSplits(f1: seq<Op>, f2: seq<Op>, m: string)
    ensures LastStatus(f1 + f2, m) == if LastStatus(f2, m).Some? then LastStatus(f2, m) else LastStatus(f1, m)
  {
    if f2 == [] {
      assert f1 + f2 == f1;
    } else {
      LastStatusSplits(f1, f2[..|f2| - 1], m);
      assert (f1 + f2)[..|f1 + f2| - 1] == f1 + f2[..|f2| - 1];
    }
  }

  /**
   * Reduction. The three calls with any others in between leave the nine buckets an atomic `go_live` at the point of
   * the last call would leave, exactly when the others' last word on the match's status, if any, was "live", and their
   * last allocation of the stream after the second call, if any, was to this match.
   */
  lemma {:induction false} ReductionIff(ref: Roster, b: Buckets, m: string, stream: string, f1: seq<Op>, f2: seq<Op>)
    ensures RunFrom(ref, b, Interleaved(m, stream, f1, f2)) == RunFrom(ref, b, Atomic(m, stream, f1, f2)) <==>
            GetOr(LastStatus(f1 + f2, m), "live") == "live" && GetOr(LastMatch(f2, stream), m) == m
  {
    LaterStages(ref, b, m, stream, f1, f2);
    AtomicRun(ref, b, m, stream, f1, f2);
    StagesMasked(ref, b, m, stream, f1, f2);
    StagesWritten(ref, b, m, stream, f1, f2);
    LastCall(Stage4(ref, b, m, stream, f1, f2), RunFrom(ref, b, f1 + f2), m, stream,
             GetOr(LastStatus(f1 + f2, m), "live"), GetOr(LastMatch(f2, stream), m));
  }

  /** Both halves of that condition matter: a match finished in between, or its stream given away, is not live after. */
  lemma {:induction false} ReductionFails(ref: Roster, b: Buckets, m: string, stream: string, other: string)
    requires other != m
    ensures var ended := [PushLiveEvent(m, "finished", None)];
            RunFrom(ref, b, Interleaved(m, stream, ended, [])) != RunFrom(ref, b, Atomic(m, stream, ended, []))
    ensures var taken := [AllocateStream(stream, other)];
            RunFrom(ref, b, Interleaved(m, stream, [], taken)) != RunFrom(ref, b, Atomic(m, stream, [], taken))
  {
    var ended, taken := [PushLiveEvent(m, "finished", None)], [AllocateStream(stream, other)];
    assert ended + [] == ended;
    assert LastStatus(ended, m) == Some("finished") && "finished"[0] != "live"[0];
    ReductionIff(ref, b, m, stream, ended, []);
    assert LastMatch(taken, stream) == Some(other);
    ReductionIff(ref, b, m, stream, [], taken);
  }

  lemma LastCall(b: Buckets, c: Buckets, m: string, stream: string, status: string, onAir: string)
    requires Mask(b, m, stream) == Mask(c, m, stream) && HasStatus(b, m, status) && OnAir(b, stream, onAir)
    ensures Semantics.RecomputeStandings(b).buckets == Semantics.GoLive(c, m, stream, "match is live").buckets <==>
            status == "live" && onAir == m
  {
    HiddenCalls(b, m, stream);
    HiddenGoLive(c, m, stream, "match is live");
    assert b.countryScores == Mask(b, m, stream).countryScores == Mask(c, m, stream).countryScores == c.countryScores;
    MaskHidesThree(Semantics.RecomputeStandings(b).buckets, Semantics.GoLive(c, m, stream, "match is live").buckets,
                   m, stream, status, "live", onAir, m);
  }

  lemma ReplyInMiddle(ref: Roster, b: Buckets, x: seq<Op>, y: seq<Op>, z: seq<Op>, k: nat)
    requires k < |y|
    ensures ReplyFrom(ref, b, x + y + z, |x| + k) == ReplyFrom(ref, RunFrom(ref, b, x), y, k)
  {
    assert (x + y + z)[..|x| + k] == x + y[..k];
    RunFromSplits(ref, b, x, y[..k]);
  }

  lemma ReplyAtFront(ref: Roster, b: Buckets, y: seq<Op>, z: seq<Op>, k: nat)
    requires k < |y|
    ensures ReplyFrom(ref, b, y + z, k) == ReplyFrom(ref, b, y, k)
  {
    assert (y + z)[..k] == y[..k];
  }

  lemma Regrouped(m: string, stream: string, f1: seq<Op>, f2: seq<Op>)
    ensures Interleaved(m, stream, f1, f2) ==
            [Announce(m)] + f1 + ([AllocateStream(stream, m)] + f2 + [RecomputeStandings])
    ensures Atomic(m, stream, f1, f2) == f1 + (f2 + [Op.GoLive(m, stream, None)])
  {
  }

  /** Nobody served between the first two calls can tell the chain from the atomic operation, whatever they ask for. */
  lemma {:induction false} FirstOthersCannotTell(ref: Roster, b: Buckets, m: string, stream: string, f1: seq<Op>,
                                                 f2: seq<Op>, k: nat)
    requires k < |f1|
    ensures ReplyFrom(ref, b, Interleaved(m, stream, f1, f2), 1 + k) == ReplyFrom(ref, b, Atomic(m, stream, f1, f2), k)
  {
    Regrouped(m, stream, f1, f2);
    FirstStages(ref, b, m, f1);
    ReplyInMiddle(ref, b, [Announce(m)], f1, [AllocateStream(stream, m)] + f2 + [RecomputeStandings], k);
    ReplyAtFront(ref, b, f1, f2 + [Op.GoLive(m, stream, None)], k);
    HiddenCalls(b, m, stream);
    SameReplies(ref, Stage1(b, m), b, f1, m, stream, k);
  }

  /** Where the k-th of the later others stands in the chain, and what it finds there. */
  lemma LaterInChain(ref: Roster, b: Buckets, m: string, stream: string, f1: seq<Op>, f2: seq<Op>, k: nat)
    requires k < |f2|
    ensures var chain, i := Interleaved(m, stream, f1, f2), |f1| + 2 + k;
            && chain[i] == f2[k]
            && RunFrom(ref, b, chain[..i]) == RunFrom(ref, Stage3(ref, b, m, stream, f1), f2[..k])
  {
    var opening := Opening(m, stream, f1);
    assert Interleaved(m, stream, f1, f2)[..|f1| + 2 + k] == opening + f2[..k];
    OpeningStage(ref, b, m, stream, f1);
    RunFromSplits(ref, b, opening, f2[..k]);
  }

  lemma LaterInAtomic(ref: Roster, b: Buckets, m: string, stream: string, f1: seq<Op>, f2: seq<Op>, k: nat)
    requires k < |f2|
    ensures var atomic, i := Atomic(m, stream, f1, f2), |f1| + k;
            atomic[i] == f2[k] && RunFrom(ref, b, atomic[..i]) == RunFrom(ref, RunFrom(ref, b, f1), f2[..k])
  {
    assert Atomic(m, stream, f1, f2)[..|f1| + k] == f1 + f2[..k];
    RunFromSplits(ref, b, f1, f2[..k]);
  }

  lemma SameReply(ref: Roster, op: Op, b: Buckets, c: Buckets, m: string, stream: string)
    requires Mask(b, m, stream) == Mask(c, m, stream)
    ensures Semantics.Apply(ref, op, b).reply == Semantics.Apply(ref, op, c).reply
  {
    MaskStep(ref, op, b, m, stream);
    MaskStep(ref, op, c, m, stream);
  }

  /** Nor can anybody served between the last two. */
  lemma {:induction false} LaterOthersCannotTell(ref: Roster, b: Buckets, m: string, stream: string, f1: seq<Op>,
                                                 f2: seq<Op>, k: nat)
    requires k < |f2|
    ensures ReplyFrom(ref, b, Interleaved(m, stream, f1, f2), |f1| + 2 + k) ==
            ReplyFrom(ref, b, Atomic(m, stream, f1, f2), |f1| + k)
  {
    var c, d := Stage3(ref, b, m, stream, f1), RunFrom(ref, b, f1);
    LaterInChain(ref, b, m, stream, f1, f2, k);
    LaterInAtomic(ref, b, m, stream, f1, f2, k);
    StagesMasked(ref, b, m, stream, f1, f2);
    MaskRun(ref, c, d, f2[..k], m, stream);
    SameReply(ref, f2[k], RunFrom(ref, c, f2[..k]), RunFrom(ref, d, f2[..k]), m, stream);
  }

  /** The three calls of the chain, each its own transaction, among any other transactions. */
  lemma {:induction false} ChainUnderTransactions(ref: Roster, calls: seq<FaasProtocol.Call>,
                                                  trace: seq<FaasProtocol.Action>, before: seq<nat>, first: nat,
                                                  f1: seq<nat>, second: nat, f2: seq<nat>, third: nat, m: string,
                                                  stream: string)
    requires FaasProtocol.AllTransactional(calls)
    requires FaasProtocol.InRange(calls, before) && FaasProtocol.InRange(calls, f1) && FaasProtocol.InRange(calls, f2)
    requires first < |calls| && second < |calls| && third < |calls|
    requires [calls[first].op, calls[second].op, calls[third].op] == Chain(m, stream)
    requires FaasProtocol.SaveOrder(ref, calls, trace) == before + [first] + f1 + [second] + f2 + [third]
    ensures var b := FaasProtocol.Sequential(ref, calls, before).buckets;
            var o1, o2 := FaasProtocol.OpsOf(calls, f1), FaasProtocol.OpsOf(calls, f2);
            FaasProtocol.Current(FaasProtocol.Run(ref, calls, trace)).buckets ==
                RunFrom(ref, b, Atomic(m, stream, o1, o2)) <==>
            GetOr(LastStatus(o1 + o2, m), "live") == "live" && GetOr(LastMatch(o2, stream), m) == m
  {
    var o, o1, o2 := FaasProtocol.OpsOf(calls, before), FaasProtocol.OpsOf(calls, f1), FaasProtocol.OpsOf(calls, f2);
    FaasProtocol.Serializable(ref, calls, trace);
    OrderOfChain(calls, before, first, f1, second, f2, third, m, stream);
    ReplaySplits(ref, o, Interleaved(m, stream, o1, o2));
    ReductionIff(ref, Semantics.Replay(ref, o).buckets, m, stream, o1, o2);
  }

  lemma ReplaySplits(ref: Roster, ops: seq<Op>, more: seq<Op>)
    ensures Semantics.Replay(ref, ops + more).buckets == RunFrom(ref, Semantics.Replay(ref, ops).buckets, more)
  {
    ReplayIsRun(ref, ops);
    ReplayIsRun(ref, ops + more);
    RunFromSplits(ref, EMPTY_BUCKETS, ops, more);
  }

  lemma OrderOfChain(calls: seq<FaasProtocol.Call>, before: seq<nat>, first: nat, f1: seq<nat>, second: nat,
                     f2: seq<nat>, third: nat, m: string, stream: string)
    requires FaasProtocol.InRange(calls, before) && FaasProtocol.InRange(calls, f1) && FaasProtocol.InRange(calls, f2)
    requires first < |calls| && second < |calls| && third < |calls|
    requires [calls[first].op, calls[second].op, calls[third].op] == Chain(m, stream)
    ensures FaasProtocol.InRange(calls, before + [first] + f1 + [second] + f2 + [third])
    ensures FaasProtocol.OpsOf(calls, before + [first] + f1 + [second] + f2 + [third]) ==
            FaasProtocol.OpsOf(calls, before) +
            Interleaved(m, stream, FaasProtocol.OpsOf(calls, f1), FaasProtocol.OpsOf(calls, f2))
  {
    var chain := [calls[first].op, calls[second].op, calls[third].op];
    assert chain[0] == Announce(m) && chain[1] == AllocateStream(stream, m) && chain[2] == RecomputeStandings;
    var order := before + [first] + f1 + [second] + f2 + [third];
    var o, o1, o2 := FaasProtocol.OpsOf(calls, before), FaasProtocol.OpsOf(calls, f1), FaasProtocol.OpsOf(calls, f2);
    assert FaasProtocol.OpsOf(calls, order) == o + [chain[0]] + o1 + [chain[1]] + o2 + [chain[2]];
    assert o + [chain[0]] + o1 + [chain[1]] + o2 + [chain[2]] == o + ([chain[0]] + o1 + [chain[1]] + o2 + [chain[2]]);
  }

  // ---- Crashes and retries -------------------------------------------------

  /** How many calls of the chain an attempt completed before it crashed. */
  type Progress = n: nat | n <= 3

  /** The requests served when these attempts run one after the other. */
  function Attempts(m: string, stream: string, reached: seq<Progress>): seq<Op> {
    if reached == [] then []
    else Attempts(m, stream, reached[..|reached| - 1]) + Chain(m, stream)[..reached[|reached| - 1]]
  }

  /** How many of the attempts got past the first call. */
  function Announcements(reached: seq<Progress>): nat {
    if reached == [] then 0
    else Announcements(reached[..|reached| - 1]) + (if reached[|reached| - 1] >= 1 then 1 else 0)
  }

  lemma CallMasked(ref: Roster, b: Buckets, m: string, stream: string, k: nat)
    requires k < 3
    ensures Mask(Semantics.Apply(ref, Chain(m, stream)[k], b).buckets, m, stream) == Mask(b, m, stream)
  {
    HiddenCalls(b, m, stream);
  }

  lemma AttemptMasked(ref: Roster, b: Buckets, m: string, stream: string, n: Progress)
    ensures Mask(RunFrom(ref, b, Chain(m, stream)[..n]), m, stream) == Mask(b, m, stream)
    decreases n
  {
    if n > 0 {
      var c := RunFrom(ref, b, Chain(m, stream)[..n - 1]);
      AttemptMasked(ref, b, m, stream, n - 1);
      CallMasked(ref, c, m, stream, n - 1);
      assert Chain(m, stream)[..n][..n - 1] == Chain(m, stream)[..n - 1];
    }
  }

  lemma {:induction false} AttemptsMasked(ref: Roster, b: Buckets, m: string, stream: string, reached: seq<Progress>)
    ensures Mask(RunFrom(ref, b, Attempts(m, stream, reached)), m, stream) == Mask(b, m, stream)
  {
    if reached != [] {
      var init, n := reached[..|reached| - 1], reached[|reached| - 1];
      AttemptsMasked(ref, b, m, stream, init);
      RunFromSplits(ref, b, Attempts(m, stream, init), Chain(m, stream)[..n]);
      AttemptMasked(ref, RunFrom(ref, b, Attempts(m, stream, init)), m, stream, n);
    }
  }

  /** Retry converges: crashed attempts and then a complete one leave what one uninterrupted `go_live` leaves. */
  lemma {:induction false} RetryConverges(ref: Roster, b: Buckets, m: string, stream: string, reached: seq<Progress>)
    ensures RunFrom(ref, b, Attempts(m, stream, reached + [3])) ==
            Semantics.GoLive(b, m, stream, "match is live").buckets
  {
    assert (reached + [3])[..|reached|] == reached;
    var b' := RunFrom(ref, b, Attempts(m, stream, reached));
    var c := Chain(m, stream);
    AttemptsMasked(ref, b, m, stream, reached);
    RunFromSplits(ref, b, Attempts(m, stream, reached), c);
    assert c[..3] == c;
    assert Interleaved(m, stream, [], []) == c;
    LaterStages(ref, b', m, stream, [], []);
    StagesMasked(ref, b', m, stream, [], []);
    StagesWritten(ref, b', m, stream, [], []);
    var none: seq<Op> := [];
    assert none + none == none;
    LastCall(Stage4(ref, b', m, stream, [], []), b, m, stream, "live", m);
  }

  /** n copies of x, end to end. */
  function Copies<T>(x: seq<T>, n: nat): seq<T> {
    if n == 0 then [] else Copies(x, n - 1) + x
  }

  lemma {:induction false} CopiesCount<T>(x: seq<T>, n: nat)
    ensures |Copies(x, n)| == |x| * n
  {
    if n > 0 { CopiesCount(x, n - 1); }
  }

  /** Everything delivered while these requests ran. */
  function Heard(ref: Roster, ops: seq<Op>): seq<LogEntry> {
    DeliveryLog.OnlyDeliveries(Semantics.Replay(ref, ops).log)
  }

  function AudienceOf(ref: Roster, ops: seq<Op>, m: string): seq<string> {
    Semantics.SubscribersOf(Semantics.Replay(ref, ops).buckets, m)
  }

  /** One announcement to everybody subscribed once these requests have run. */
  function Shout(ref: Roster, ops: seq<Op>, m: string): (entries: seq<LogEntry>)
    ensures |entries| == |AudienceOf(ref, ops, m)|
  {
    Semantics.Deliveries(m, AudienceOf(ref, ops, m), "live")
  }

  lemma HeardThen(ref: Roster, ops: seq<Op>, op: Op)
    ensures Heard(ref, ops + [op]) == Heard(ref, ops) + DeliveryLog.FanOut(op, Semantics.Replay(ref, ops).buckets)
  {
    var s := Semantics.Replay(ref, ops);
    Semantics.ReplayExtends(ref, ops, op);
    DeliveryLog.OnlyDeliveriesSplits(s.log, Semantics.Apply(ref, op, s.buckets).entries);
    DeliveryLog.CoreFanOut(ref, op, s.buckets);
  }

  lemma CallHeard(ref: Roster, before: seq<Op>, m: string, stream: string, k: nat)
    requires k < 3
    ensures Heard(ref, before + [Chain(m, stream)[k]]) ==
            if k == 0 then Heard(ref, before) + Shout(ref, before, m) else Heard(ref, before)
  {
    HeardThen(ref, before, Chain(m, stream)[k]);
  }

  /** What an attempt delivers: the whole audience once if it got past the first call, nobody otherwise. */
  lemma {:induction false} AttemptHeard(ref: Roster, ops: seq<Op>, m: string, stream: string, n: Progress)
    ensures Heard(ref, ops + Chain(m, stream)[..n]) ==
            if n >= 1 then Heard(ref, ops) + Shout(ref, ops, m) else Heard(ref, ops)
    decreases n
  {
    var c := Chain(m, stream);
    assert ops + c[..0] == ops;
    if n > 0 {
      AttemptHeard(ref, ops, m, stream, n - 1);
      ChainPrefix(ops, m, stream, n);
      CallHeard(ref, ops + c[..n - 1], m, stream, n - 1);
    }
  }

  lemma ChainPrefix(ops: seq<Op>, m: string, stream: string, n: Progress)
    requires n > 0
    ensures ops + Chain(m, stream)[..n] == (ops + Chain(m, stream)[..n - 1]) + [Chain(m, stream)[n - 1]]
  {
  }

  lemma SameAudience(ref: Roster, ops: seq<Op>, m: string, stream: string, reached: seq<Progress>)
    ensures AudienceOf(ref, ops + Attempts(m, stream, reached), m) == AudienceOf(ref, ops, m)
  {
    var b := Semantics.Replay(ref, ops).buckets;
    ReplaySplits(ref, ops, Attempts(m, stream, reached));
    AttemptsMasked(ref, b, m, stream, reached);
    assert Mask(RunFrom(ref, b, Attempts(m, stream, reached)), m, stream).subscriptions ==
        Mask(b, m, stream).subscriptions;
  }

  lemma AttemptsSplit(ops: seq<Op>, m: string, stream: string, reached: seq<Progress>, n: Progress)
    ensures ops + Attempts(m, stream, reached + [n]) == (ops + Attempts(m, stream, reached)) + Chain(m, stream)[..n]
    ensures Announcements(reached + [n]) == Announcements(reached) + (if n >= 1 then 1 else 0)
  {
    assert (reached + [n])[..|reached|] == reached;
  }

  lemma OneMoreCopy<T>(before: seq<T>, x: seq<T>, k: nat, now: seq<T>, next: seq<T>, again: bool)
    requires now == before + Copies(x, k) && next == if again then now + x else now
    ensures next == before + Copies(x, k + if again then 1 else 0)
  {
  }

  /** One more attempt, by the audience there was before the first. */
  lemma OneMoreAttempt(ref: Roster, ops: seq<Op>, m: string, stream: string, reached: seq<Progress>, n: Progress)
    ensures var now := Heard(ref, ops + Attempts(m, stream, reached));
            Heard(ref, ops + Attempts(m, stream, reached + [n])) == if n >= 1 then now + Shout(ref, ops, m) else now
  {
    var before := ops + Attempts(m, stream, reached);
    assert Shout(ref, before, m) == Shout(ref, ops, m) by { SameAudience(ref, ops, m, stream, reached); }
    AttemptHeard(ref, before, m, stream, n);
    AttemptsSplit(ops, m, stream, reached, n);
  }

  lemma NextAttemptHeard(ref: Roster, ops: seq<Op>, m: string, stream: string, reached: seq<Progress>, n: Progress)
    requires Heard(ref, ops + Attempts(m, stream, reached)) ==
             Heard(ref, ops) + Copies(Shout(ref, ops, m), Announcements(reached))
    ensures Heard(ref, ops + Attempts(m, stream, reached + [n])) ==
            Heard(ref, ops) + Copies(Shout(ref, ops, m), Announcements(reached + [n]))
  {
    OneMoreAttempt(ref, ops, m, stream, reached, n);
    AttemptsSplit(ops, m, stream, reached, n);
    OneMoreCopy(Heard(ref, ops), Shout(ref, ops, m), Announcements(reached),
                Heard(ref, ops + Attempts(m, stream, reached)), Heard(ref, ops + Attempts(m, stream, reached + [n])),
                n >= 1);
  }

  lemma {:induction false} AttemptsHeard(ref: Roster, ops: seq<Op>, m: string, stream: string, reached: seq<Progress>)
    ensures Heard(ref, ops + Attempts(m, stream, reached)) ==
            Heard(ref, ops) + Copies(Shout(ref, ops, m), Announcements(reached))
  {
    if reached == [] {
      assert ops + Attempts(m, stream, reached) == ops;
    } else {
      var init, n := reached[..|reached| - 1], reached[|reached| - 1];
      AttemptsHeard(ref, ops, m, stream, init);
      NextAttemptHeard(ref, ops, m, stream, init, n);
      assert reached == init + [n];
    }
  }

  /**
   * Retries are not free: everybody subscribed hears once per attempt that got past the first call, and once at the
   * end.
   */
  lemma {:induction false} RetryNotifies(ref: Roster, ops: seq<Op>, m: string, stream: string, reached: seq<Progress>)
    ensures var after := Heard(ref, ops + Attempts(m, stream, reached + [3]));
            && after == Heard(ref, ops) + Copies(Shout(ref, ops, m), Announcements(reached) + 1)
            && |after| == |Heard(ref, ops)| + |AudienceOf(ref, ops, m)| * (Announcements(reached) + 1)
  {
    AttemptsHeard(ref, ops, m, stream, reached + [3]);
    AttemptsSplit(ops, m, stream, reached, 3);
    CopiesCount(Shout(ref, ops, m), Announcements(reached) + 1);
  }
}
