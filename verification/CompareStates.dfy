/** The correctness gate: JSON trees, the volatile fields it strips, and what a MATCH of two final states means. */
module CompareStates {
  import opened Domain
  import Semantics
  import Monolith
  import Storage

  /** A parsed JSON document. */
  datatype Tree =
    | Null
    | Num(n: int)
    | Str(s: string)
    | List(items: seq<Tree>)
    | Obj(fields: map<string, Tree>)

  predicate Volatile(key: string) { key == "log" || key == "updated_at" || key == "ts" }

  function Strip(t: Tree): Tree {
    match t
    case Obj(fields) => Obj(map k | k in fields && !Volatile(k) :: Strip(fields[k]))
    case List(items) => List(seq(|items|, i requires 0 <= i < |items| => Strip(items[i])))
    case _ => t
  }

  /** No volatile key at any depth. */
  ghost predicate Clean(t: Tree) {
    match t
    case Obj(fields) => forall k :: k in fields ==> !Volatile(k) && Clean(fields[k])
    case List(items) => forall i :: 0 <= i < |items| ==> Clean(items[i])
    case _ => true
  }

  lemma {:induction false} StripCleans(t: Tree)
    ensures Clean(Strip(t))
  {
    match t {
      case Obj(fields) =>
        forall k | k in fields && !Volatile(k) ensures Clean(Strip(fields[k])) { StripCleans(fields[k]); }
      case List(items) =>
        forall i | 0 <= i < |items| ensures Clean(Strip(items[i])) { StripCleans(items[i]); }
      case _ =>
    }
  }

  lemma {:induction false} CleanStays(t: Tree)
    requires Clean(t)
    ensures Strip(t) == t
  {
    match t {
      case Obj(fields) =>
        forall k | k in fields ensures Strip(fields[k]) == fields[k] { CleanStays(fields[k]); }
        assert (map k | k in fields && !Volatile(k) :: Strip(fields[k])) == fields;
      case List(items) =>
        forall i | 0 <= i < |items| ensures Strip(items[i]) == items[i] { CleanStays(items[i]); }
        assert seq(|items|, i requires 0 <= i < |items| => Strip(items[i])) == items;
      case _ =>
    }
  }

  /** Stripping leaves no volatile key anywhere, and stripping again changes nothing. */
  lemma {:induction false} StripIdempotent(t: Tree)
    ensures Strip(Strip(t)) == Strip(t) && Clean(Strip(t))
  {
    StripCleans(t);
    CleanStays(Strip(t));
  }

  // ---- Records and dictionaries --------------------------------------------

  function IndexIn(names: seq<string>, k: string): (i: nat)
    requires k in names
    ensures i < |names| && names[i] == k
  {
    if names[|names| - 1] == k then |names| - 1 else IndexIn(names[..|names| - 1], k)
  }

  /** An object with these fields. */
  function Rec(names: seq<string>, values: seq<Tree>): Tree
    requires |names| == |values|
  {
    Obj(map k | k in names :: values[IndexIn(names, k)])
  }

  /** Field names that are different from one another and from the volatile ones. */
  predicate Plain(names: seq<string>) {
    Distinct(names) && forall i :: 0 <= i < |names| ==> !Volatile(names[i])
  }

  lemma RecMatch(names: seq<string>, u: seq<Tree>, v: seq<Tree>)
    requires Distinct(names) && |names| == |u| == |v|
    ensures Rec(names, u) == Rec(names, v) <==> u == v
  {
    if Rec(names, u) == Rec(names, v) {
      forall i | 0 <= i < |names| ensures u[i] == v[i] {
        assert names[i] in names;
        assert Rec(names, u).fields[names[i]] == Rec(names, v).fields[names[i]];
        assert IndexIn(names, names[i]) == i;
      }
    }
  }

  function StripAll(values: seq<Tree>): seq<Tree> {
    seq(|values|, i requires 0 <= i < |values| => Strip(values[i]))
  }

  lemma StripRec(names: seq<string>, values: seq<Tree>)
    requires Plain(names) && |names| == |values|
    ensures Strip(Rec(names, values)) == Rec(names, StripAll(values))
  {
    var fields := Rec(names, values).fields;
    assert (map k | k in fields && !Volatile(k) :: Strip(fields[k])) == Rec(names, StripAll(values)).fields;
  }

  /** An object keyed by ID. */
  function Dict<V(!new)>(m: map<string, V>, f: V -> Tree): Tree { Obj(map k | k in m :: f(m[k])) }

  /** The entries whose ID is not a volatile name, trimmed. */
  function Keep<V(!new)>(m: map<string, V>, trim: V -> V): map<string, V> {
    map k | k in m && !Volatile(k) :: trim(m[k])
  }

  ghost predicate Encodes<V(!new)>(f: V -> Tree, trim: V -> V) {
    && (forall v :: Strip(f(v)) == f(trim(v)))
    && (forall v, w :: f(v) == f(w) ==> v == w)
  }

  /** Stripped dictionaries are equal exactly when their kept entries are. */
  lemma DictMatch<V(!new)>(m: map<string, V>, n: map<string, V>, f: V -> Tree, trim: V -> V)
    requires Encodes(f, trim)
    ensures Strip(Dict(m, f)) == Strip(Dict(n, f)) <==> Keep(m, trim) == Keep(n, trim)
  {
    StripDict(m, f, trim);
    StripDict(n, f, trim);
    var p, q := Keep(m, trim), Keep(n, trim);
    if Dict(p, f) == Dict(q, f) {
      forall k ensures k in p <==> k in q
               ensures k in p && k in q ==> p[k] == q[k]
      {
        assert k in Dict(p, f).fields <==> k in Dict(q, f).fields;
        if k in p && k in q { assert f(p[k]) == Dict(p, f).fields[k] == Dict(q, f).fields[k] == f(q[k]); }
      }
      assert p == q;
    }
  }

  lemma StripDict<V(!new)>(m: map<string, V>, f: V -> Tree, trim: V -> V)
    requires Encodes(f, trim)
    ensures Strip(Dict(m, f)) == Dict(Keep(m, trim), f)
  {
    var fields := Dict(m, f).fields;
    assert (map k | k in fields && !Volatile(k) :: Strip(fields[k])) == Dict(Keep(m, trim), f).fields;
  }

  function Same<V>(v: V): V { v }

  // ---- The entities as trees -----------------------------------------------

  const VENUE_FIELDS := ["status", "held_by"]
  const MATCH_FIELDS := ["venue_id", "seats"]
  const LIVE_MATCH_FIELDS := ["venue_id", "seats", "status"]
  const SHUTTLE_FIELDS := ["route", "passengers", "capacity"]
  const BOOKING_FIELDS := ["athlete_id", "restaurant_id", "party_size"]
  const SCORE_FIELDS := ["gold", "silver", "bronze", "points"]
  const ROW_FIELDS := ["country", "gold", "silver", "bronze", "points", "rank"]
  const STREAM_FIELDS := ["match_id", "status"]
  const BUCKET_NAMES := ["venues", "matches", "volunteers", "shuttles", "restaurant_bookings", "subscriptions",
                         "country_scores", "standings", "streams"]

  lemma ShortNamesPlain()
    ensures Plain(VENUE_FIELDS) && Plain(MATCH_FIELDS) && Plain(LIVE_MATCH_FIELDS) && Plain(SHUTTLE_FIELDS)
    ensures Plain(STREAM_FIELDS) && Plain(["venue"]) && Plain(["ranking"])
  {
  }

  lemma LongNamesPlain()
    ensures Plain(BOOKING_FIELDS) && Plain(SCORE_FIELDS)
  {
    assert BOOKING_FIELDS[0][0] != BOOKING_FIELDS[2][0];
    assert BOOKING_FIELDS[0][0] != "updated_at"[0] && BOOKING_FIELDS[2][0] != "updated_at"[0];
    assert SCORE_FIELDS[1][0] != SCORE_FIELDS[2][0] && SCORE_FIELDS[1][0] != SCORE_FIELDS[3][0];
    assert SCORE_FIELDS[2][0] != SCORE_FIELDS[3][0];
  }

  lemma RowNamesPlain()
    ensures Plain(ROW_FIELDS)
  {
    assert ROW_FIELDS[1][0] != ROW_FIELDS[5][0] && ROW_FIELDS[2][0] != ROW_FIELDS[3][0];
    assert ROW_FIELDS[2][0] != ROW_FIELDS[4][0] && ROW_FIELDS[3][0] != ROW_FIELDS[4][0];
  }

  lemma BucketNamesPlain()
    ensures Plain(BUCKET_NAMES)
  {
    assert BUCKET_NAMES[1][0] != BUCKET_NAMES[8][0];
    assert BUCKET_NAMES[2][0] != "updated_at"[0];
  }

  function OptTree(o: Option<string>): Tree {
    match o
    case None => Null
    case Some(v) => Str(v)
  }

  function VenueTree(v: Venue): Tree {
    Rec(VENUE_FIELDS, [Str(if v.status.Free? then "free" else "occupied"), OptTree(v.heldBy)])
  }

  function UserTree(user: string): Tree { Str(user) }

  /** A match has a status field once an event set one. */
  function MatchTree(m: Match): Tree {
    var seats := Dict(m.seats, UserTree);
    match m.status
    case None => Rec(MATCH_FIELDS, [OptTree(m.venueId), seats])
    case Some(status) => Rec(LIVE_MATCH_FIELDS, [OptTree(m.venueId), seats, Str(status)])
  }

  function VolunteerTree(venue: string): Tree { Rec(["venue"], [Str(venue)]) }

  function ShuttleTree(s: Shuttle): Tree { Rec(SHUTTLE_FIELDS, [Str(s.route), Num(s.passengers), Num(s.capacity)]) }

  function BookingTree(b: Booking): Tree {
    Rec(BOOKING_FIELDS, [Str(b.athleteId), Str(b.restaurantId), Num(b.partySize)])
  }

  function UsersTree(users: seq<string>): Tree { List(seq(|users|, i requires 0 <= i < |users| => Str(users[i]))) }

  function ScoreTree(s: Score): Tree { Rec(SCORE_FIELDS, [Num(s.gold), Num(s.silver), Num(s.bronze), Num(s.points)]) }

  function RowTree(r: Row): Tree {
    Rec(ROW_FIELDS, [Str(r.country), Num(r.gold), Num(r.silver), Num(r.bronze), Num(r.points), Num(r.rank)])
  }

  function RowList(rows: seq<Row>): Tree { List(seq(|rows|, i requires 0 <= i < |rows| => RowTree(rows[i]))) }

  function StandingsTree(o: Option<seq<Row>>): Tree {
    match o
    case None => Obj(map[])
    case Some(rows) => Rec(["ranking"], [RowList(rows)])
  }

  function StreamTree(s: Stream): Tree { Rec(STREAM_FIELDS, [Str(s.matchId), Str(s.status)]) }

  /** Nothing inside a record of leaves is stripped. */
  lemma LeavesStay(names: seq<string>, values: seq<Tree>)
    requires Plain(names) && |names| == |values|
    requires forall i :: 0 <= i < |values| ==> Strip(values[i]) == values[i]
    ensures Strip(Rec(names, values)) == Rec(names, values)
  {
    StripRec(names, values);
    assert StripAll(values) == values;
  }

  lemma VenuesEncode()
    ensures Encodes(VenueTree, Same)
  {
    ShortNamesPlain();
    forall v: Venue ensures Strip(VenueTree(v)) == VenueTree(v) {
      LeavesStay(VENUE_FIELDS, [Str(if v.status.Free? then "free" else "occupied"), OptTree(v.heldBy)]);
    }
    forall v: Venue, w: Venue | VenueTree(v) == VenueTree(w) ensures v == w {
      var x := [Str(if v.status.Free? then "free" else "occupied"), OptTree(v.heldBy)];
      var y := [Str(if w.status.Free? then "free" else "occupied"), OptTree(w.heldBy)];
      RecMatch(VENUE_FIELDS, x, y);
      assert x[0] == y[0] && x[1] == y[1];
      assert |"free"| != |"occupied"|;
    }
  }

  lemma VolunteersEncode()
    ensures Encodes(VolunteerTree, Same)
  {
    ShortNamesPlain();
    forall v ensures Strip(VolunteerTree(v)) == VolunteerTree(v) { LeavesStay(["venue"], [Str(v)]); }
    forall v, w | VolunteerTree(v) == VolunteerTree(w) ensures v == w {
      RecMatch(["venue"], [Str(v)], [Str(w)]);
      assert [Str(v)][0] == [Str(w)][0];
    }
  }

  lemma ShuttlesEncode()
    ensures Encodes(ShuttleTree, Same)
  {
    ShortNamesPlain();
    forall s: Shuttle ensures Strip(ShuttleTree(s)) == ShuttleTree(s) {
      LeavesStay(SHUTTLE_FIELDS, [Str(s.route), Num(s.passengers), Num(s.capacity)]);
    }
    forall s: Shuttle, t: Shuttle | ShuttleTree(s) == ShuttleTree(t) ensures s == t {
      var x := [Str(s.route), Num(s.passengers), Num(s.capacity)];
      var y := [Str(t.route), Num(t.passengers), Num(t.capacity)];
      RecMatch(SHUTTLE_FIELDS, x, y);
      assert x[0] == y[0] && x[1] == y[1] && x[2] == y[2];
    }
  }

  lemma BookingsEncode()
    ensures Encodes(BookingTree, Same)
  {
    LongNamesPlain();
    forall b: Booking ensures Strip(BookingTree(b)) == BookingTree(b) {
      LeavesStay(BOOKING_FIELDS, [Str(b.athleteId), Str(b.restaurantId), Num(b.partySize)]);
    }
    forall b: Booking, c: Booking | BookingTree(b) == BookingTree(c) ensures b == c {
      var x := [Str(b.athleteId), Str(b.restaurantId), Num(b.partySize)];
      var y := [Str(c.athleteId), Str(c.restaurantId), Num(c.partySize)];
      RecMatch(BOOKING_FIELDS, x, y);
      assert x[0] == y[0] && x[1] == y[1] && x[2] == y[2];
    }
  }

  lemma UserListsEncode()
    ensures Encodes(UsersTree, Same)
  {
    forall u: seq<string> ensures Strip(UsersTree(u)) == UsersTree(u) {
      assert Strip(UsersTree(u)).items == UsersTree(u).items;
    }
    forall u: seq<string>, v: seq<string> | UsersTree(u) == UsersTree(v) ensures u == v {
      assert |u| == |UsersTree(u).items| == |v|;
      forall i | 0 <= i < |u| ensures u[i] == v[i] { assert UsersTree(u).items[i] == UsersTree(v).items[i]; }
    }
  }

  lemma ScoresEncode()
    ensures Encodes(ScoreTree, Same)
  {
    LongNamesPlain();
    forall s: Score ensures Strip(ScoreTree(s)) == ScoreTree(s) {
      LeavesStay(SCORE_FIELDS, [Num(s.gold), Num(s.silver), Num(s.bronze), Num(s.points)]);
    }
    forall s: Score, t: Score | ScoreTree(s) == ScoreTree(t) ensures s == t {
      var x := [Num(s.gold), Num(s.silver), Num(s.bronze), Num(s.points)];
      var y := [Num(t.gold), Num(t.silver), Num(t.bronze), Num(t.points)];
      RecMatch(SCORE_FIELDS, x, y);
      assert x[0] == y[0] && x[1] == y[1] && x[2] == y[2] && x[3] == y[3];
    }
  }

  lemma StreamsEncode()
    ensures Encodes(StreamTree, Same)
  {
    ShortNamesPlain();
    forall s: Stream ensures Strip(StreamTree(s)) == StreamTree(s) {
      LeavesStay(STREAM_FIELDS, [Str(s.matchId), Str(s.status)]);
    }
    forall s: Stream, t: Stream | StreamTree(s) == StreamTree(t) ensures s == t { SameStreams(s, t); }
  }

  lemma SameStreams(s: Stream, t: Stream)
    requires StreamTree(s) == StreamTree(t)
    ensures s == t
  {
    var x, y := [Str(s.matchId), Str(s.status)], [Str(t.matchId), Str(t.status)];
    ShortNamesPlain();
    RecMatch(STREAM_FIELDS, x, y);
    assert x[0] == y[0] && x[1] == y[1];
  }

  lemma RowsEncode()
    ensures Encodes(RowTree, Same)
  {
    RowNamesPlain();
    forall r: Row ensures Strip(RowTree(r)) == RowTree(r) {
      LeavesStay(ROW_FIELDS, [Str(r.country), Num(r.gold), Num(r.silver), Num(r.bronze), Num(r.points), Num(r.rank)]);
    }
    forall r: Row, q: Row | RowTree(r) == RowTree(q) ensures r == q {
      var x := [Str(r.country), Num(r.gold), Num(r.silver), Num(r.bronze), Num(r.points), Num(r.rank)];
      var y := [Str(q.country), Num(q.gold), Num(q.silver), Num(q.bronze), Num(q.points), Num(q.rank)];
      RecMatch(ROW_FIELDS, x, y);
      assert x[0] == y[0] && x[1] == y[1] && x[2] == y[2] && x[3] == y[3] && x[4] == y[4] && x[5] == y[5];
    }
  }

  lemma StandingsEncode()
    ensures Encodes(StandingsTree, Same)
  {
    RowsEncode();
    ShortNamesPlain();
    forall o: Option<seq<Row>> ensures Strip(StandingsTree(o)) == StandingsTree(o) {
      if o.Some? {
        assert Strip(RowList(o.value)).items == RowList(o.value).items;
        LeavesStay(["ranking"], [RowList(o.value)]);
      } else {
        CleanStays(StandingsTree(o));
      }
    }
    forall o: Option<seq<Row>>, p: Option<seq<Row>> | StandingsTree(o) == StandingsTree(p) ensures o == p {
      assert o.Some? <==> "ranking" in StandingsTree(o).fields;
      assert p.Some? <==> "ranking" in StandingsTree(p).fields;
      if o.Some? {
        RecMatch(["ranking"], [RowList(o.value)], [RowList(p.value)]);
        assert [RowList(o.value)][0] == [RowList(p.value)][0];
        RowListsDiffer(o.value, p.value);
      }
    }
  }

  lemma RowListsDiffer(rows: seq<Row>, other: seq<Row>)
    requires RowList(rows) == RowList(other)
    ensures rows == other
  {
    RowsEncode();
    assert |rows| == |RowList(rows).items| == |other|;
    forall i | 0 <= i < |rows| ensures rows[i] == other[i] {
      assert RowList(rows).items[i] == RowList(other).items[i];
    }
  }

  /** A match without the seats whose ID is a volatile name. */
  function TrimSeats(m: Match): Match { m.(seats := Keep(m.seats, Same)) }

  lemma MatchesEncode()
    ensures Encodes(MatchTree, TrimSeats)
  {
    forall m ensures Strip(MatchTree(m)) == MatchTree(TrimSeats(m)) { MatchStrips(m); }
    forall m, n | MatchTree(m) == MatchTree(n) ensures m == n { MatchesDiffer(m, n); }
  }

  lemma MatchStrips(m: Match)
    ensures Strip(MatchTree(m)) == MatchTree(TrimSeats(m))
  {
    ShortNamesPlain();
    StripDict(m.seats, UserTree, Same);
    var seats, kept := Dict(m.seats, UserTree), Dict(Keep(m.seats, Same), UserTree);
    match m.status {
      case None =>
        StripRec(MATCH_FIELDS, [OptTree(m.venueId), seats]);
        assert StripAll([OptTree(m.venueId), seats]) == [OptTree(m.venueId), kept];
      case Some(status) =>
        StripRec(LIVE_MATCH_FIELDS, [OptTree(m.venueId), seats, Str(status)]);
        assert StripAll([OptTree(m.venueId), seats, Str(status)]) == [OptTree(m.venueId), kept, Str(status)];
    }
  }

  lemma MatchesDiffer(m: Match, n: Match)
    requires MatchTree(m) == MatchTree(n)
    ensures m == n
  {
    ShortNamesPlain();
    assert LIVE_MATCH_FIELDS[2] !in MATCH_FIELDS;
    assert m.status.Some? <==> LIVE_MATCH_FIELDS[2] in MatchTree(m).fields;
    assert n.status.Some? <==> LIVE_MATCH_FIELDS[2] in MatchTree(n).fields;
    var p, q := Dict(m.seats, UserTree), Dict(n.seats, UserTree);
    if m.status.None? {
      var x, y := [OptTree(m.venueId), p], [OptTree(n.venueId), q];
      RecMatch(MATCH_FIELDS, x, y);
      assert x[0] == y[0] && x[1] == y[1];
    } else {
      var x, y := [OptTree(m.venueId), p, Str(m.status.value)], [OptTree(n.venueId), q, Str(n.status.value)];
      RecMatch(LIVE_MATCH_FIELDS, x, y);
      assert x[0] == y[0] && x[1] == y[1] && x[2] == y[2];
    }
    SeatsDiffer(m.seats, n.seats);
  }

  lemma SeatsDiffer(s: map<string, string>, t: map<string, string>)
    requires Dict(s, UserTree) == Dict(t, UserTree)
    ensures s == t
  {
    forall k ensures k in s <==> k in t
             ensures k in s && k in t ==> s[k] == t[k]
    {
      assert k in Dict(s, UserTree).fields <==> k in Dict(t, UserTree).fields;
      if k in s && k in t { assert Dict(s, UserTree).fields[k] == Dict(t, UserTree).fields[k]; }
    }
  }

  // ---- The verdict ---------------------------------------------------------

  /** The i-th of the nine buckets other than the log, as a tree. */
  function BucketTree(b: Buckets, i: nat): Tree {
    match i
    case 0 => Dict(b.venues, VenueTree)
    case 1 => Dict(b.matches, MatchTree)
    case 2 => Dict(b.volunteers, VolunteerTree)
    case 3 => Dict(b.shuttles, ShuttleTree)
    case 4 => Dict(b.restaurantBookings, BookingTree)
    case 5 => Dict(b.subscriptions, UsersTree)
    case 6 => Dict(b.countryScores.entries, ScoreTree)
    case 7 => StandingsTree(b.standings)
    case _ => Dict(b.streams, StreamTree)
  }

  function BucketTrees(b: Buckets): seq<Tree> {
    seq(|BUCKET_NAMES|, i requires 0 <= i < |BUCKET_NAMES| => BucketTree(b, i))
  }

  function WithLog(t: Tree, log: Tree): Tree
    requires t.Obj?
  {
    Obj(t.fields["log" := log])
  }

  /** A dumped state. The log, with its timestamps, can be any tree. */
  function StateTree(b: Buckets, log: Tree): Tree { WithLog(Rec(BUCKET_NAMES, BucketTrees(b)), log) }

  /** The program's verdict on two dumps. */
  predicate Agree(t: Tree, u: Tree) { Strip(t) == Strip(u) }

  /**
   * The i-th buckets agree on everything filed under an ID that is not a volatile name; a dictionary's order is
   * nothing.
   */
  ghost predicate SameBucket(b: Buckets, c: Buckets, i: nat) {
    match i
    case 0 => Keep(b.venues, Same) == Keep(c.venues, Same)
    case 1 => Keep(b.matches, TrimSeats) == Keep(c.matches, TrimSeats)
    case 2 => Keep(b.volunteers, Same) == Keep(c.volunteers, Same)
    case 3 => Keep(b.shuttles, Same) == Keep(c.shuttles, Same)
    case 4 => Keep(b.restaurantBookings, Same) == Keep(c.restaurantBookings, Same)
    case 5 => Keep(b.subscriptions, Same) == Keep(c.subscriptions, Same)
    case 6 => Keep(b.countryScores.entries, Same) == Keep(c.countryScores.entries, Same)
    case 7 => b.standings == c.standings
    case _ => Keep(b.streams, Same) == Keep(c.streams, Same)
  }

  ghost predicate SameKept(b: Buckets, c: Buckets) {
    forall i: nat :: i < |BUCKET_NAMES| ==> SameBucket(b, c, i)
  }

  lemma StripWithLog(names: seq<string>, values: seq<Tree>, log: Tree)
    requires Plain(names) && |names| == |values|
    ensures Strip(WithLog(Rec(names, values), log)) == Rec(names, StripAll(values))
  {
    StripRec(names, values);
    LogStripped(Rec(names, values).fields, log);
  }

  lemma LogStripped(record: map<string, Tree>, log: Tree)
    ensures Strip(Obj(record["log" := log])) == Strip(Obj(record))
  {
    var fields := record["log" := log];
    assert Volatile("log");
    assert (map k | k in fields && !Volatile(k) :: Strip(fields[k])) ==
           (map k | k in record && !Volatile(k) :: Strip(record[k]));
  }

  /** Dumps agree exactly when each field but the log agrees. */
  lemma DumpsAgree(names: seq<string>, u: seq<Tree>, v: seq<Tree>, log: Tree, log': Tree)
    requires Plain(names) && |names| == |u| == |v|
    ensures Agree(WithLog(Rec(names, u), log), WithLog(Rec(names, v), log')) <==>
            forall i :: 0 <= i < |names| ==> Strip(u[i]) == Strip(v[i])
  {
    StripWithLog(names, u, log);
    StripWithLog(names, v, log');
    RecMatch(names, StripAll(u), StripAll(v));
    if StripAll(u) == StripAll(v) {
      forall i | 0 <= i < |names| ensures Strip(u[i]) == Strip(v[i]) { assert StripAll(u)[i] == StripAll(v)[i]; }
    }
  }

  lemma BucketsMatch(b: Buckets, c: Buckets, i: nat)
    requires i < |BUCKET_NAMES|
    ensures Strip(BucketTree(b, i)) == Strip(BucketTree(c, i)) <==> SameBucket(b, c, i)
  {
    if i == 0 {
      VenuesEncode();
      DictMatch(b.venues, c.venues, VenueTree, Same);
    } else if i == 1 {
      MatchesEncode();
      DictMatch(b.matches, c.matches, MatchTree, TrimSeats);
    } else if i == 2 {
      VolunteersEncode();
      DictMatch(b.volunteers, c.volunteers, VolunteerTree, Same);
    } else if i == 3 {
      ShuttlesEncode();
      DictMatch(b.shuttles, c.shuttles, ShuttleTree, Same);
    } else if i == 4 {
      BookingsEncode();
      DictMatch(b.restaurantBookings, c.restaurantBookings, BookingTree, Same);
    } else if i == 5 {
      UserListsEncode();
      DictMatch(b.subscriptions, c.subscriptions, UsersTree, Same);
    } else if i == 6 {
      ScoresEncode();
      DictMatch(b.countryScores.entries, c.countryScores.entries, ScoreTree, Same);
    } else if i == 7 {
      StandingsEncode();
    } else {
      StreamsEncode();
      DictMatch(b.streams, c.streams, StreamTree, Same);
    }
  }

  /** Soundness of MATCH: two dumps agree exactly when their buckets do on everything not filed under a volatile ID. */
  lemma {:induction false} MatchIff(b: Buckets, log: Tree, c: Buckets, log': Tree)
    ensures Agree(StateTree(b, log), StateTree(c, log')) <==> SameKept(b, c)
  {
    BucketNamesPlain();
    DumpsAgree(BUCKET_NAMES, BucketTrees(b), BucketTrees(c), log, log');
    forall i: nat | i < |BUCKET_NAMES|
      ensures Strip(BucketTrees(b)[i]) == Strip(BucketTrees(c)[i]) <==> SameBucket(b, c, i)
    {
      BucketsMatch(b, c, i);
    }
  }

  predicate NoVolatileKeys<V>(m: map<string, V>) { forall k :: k in m ==> !Volatile(k) }

  predicate NoVolatileIds(b: Buckets) {
    && NoVolatileKeys(b.venues) && NoVolatileKeys(b.matches) && NoVolatileKeys(b.volunteers)
    && NoVolatileKeys(b.shuttles) && NoVolatileKeys(b.restaurantBookings) && NoVolatileKeys(b.subscriptions)
    && NoVolatileKeys(b.countryScores.entries) && NoVolatileKeys(b.streams)
    && forall m :: m in b.matches ==> NoVolatileKeys(b.matches[m].seats)
  }

  lemma AllKept<V(!new)>(m: map<string, V>, trim: V -> V)
    requires NoVolatileKeys(m) && forall k :: k in m ==> trim(m[k]) == m[k]
    ensures Keep(m, trim) == m
  {
  }

  lemma SeatsAllKept(m: Match)
    requires NoVolatileKeys(m.seats)
    ensures TrimSeats(m) == m
  {
    AllKept(m.seats, Same);
  }

  lemma NothingTrimmed(b: Buckets)
    requires NoVolatileIds(b)
    ensures Keep(b.venues, Same) == b.venues && Keep(b.matches, TrimSeats) == b.matches
    ensures Keep(b.volunteers, Same) == b.volunteers && Keep(b.shuttles, Same) == b.shuttles
    ensures Keep(b.restaurantBookings, Same) == b.restaurantBookings
    ensures Keep(b.subscriptions, Same) == b.subscriptions
    ensures Keep(b.countryScores.entries, Same) == b.countryScores.entries && Keep(b.streams, Same) == b.streams
  {
    AllKept(b.venues, Same);
    forall m | m in b.matches ensures TrimSeats(b.matches[m]) == b.matches[m] { SeatsAllKept(b.matches[m]); }
    AllKept(b.matches, TrimSeats);
    AllKept(b.volunteers, Same);
    AllKept(b.shuttles, Same);
    AllKept(b.restaurantBookings, Same);
    AllKept(b.subscriptions, Same);
    AllKept(b.countryScores.entries, Same);
    AllKept(b.streams, Same);
  }

  /** The buckets as dictionaries, whose order is nothing. */
  ghost predicate SameDictionaries(b: Buckets, c: Buckets) {
    b.(countryScores := NO_SCORES) == c.(countryScores := NO_SCORES) &&
        b.countryScores.entries == c.countryScores.entries
  }

  lemma KeptIsAll(b: Buckets, c: Buckets)
    requires NoVolatileIds(b) && NoVolatileIds(c)
    ensures SameKept(b, c) <==> SameDictionaries(b, c)
  {
    if SameKept(b, c) {
      KeptMeansSame(b, c);
    } else if SameDictionaries(b, c) {
      SameMeansKept(b, c);
    }
  }

  lemma SameMeansKept(b: Buckets, c: Buckets)
    requires SameDictionaries(b, c)
    ensures SameKept(b, c)
  {
    forall i: nat | i < |BUCKET_NAMES| ensures SameBucket(b, c, i) {}
  }

  lemma KeptMeansSame(b: Buckets, c: Buckets)
    requires NoVolatileIds(b) && NoVolatileIds(c) && SameKept(b, c)
    ensures SameDictionaries(b, c)
  {
    NothingTrimmed(b);
    NothingTrimmed(c);
    assert b.(countryScores := NO_SCORES) == c.(countryScores := NO_SCORES) by {
      assert SameBucket(b, c, 0) && SameBucket(b, c, 1) && SameBucket(b, c, 2) && SameBucket(b, c, 3);
      assert SameBucket(b, c, 4) && SameBucket(b, c, 5) && SameBucket(b, c, 7) && SameBucket(b, c, 8);
    }
    assert SameBucket(b, c, 6);
  }

  /** For states whose IDs avoid the volatile names, MATCH means that all nine buckets are equal. */
  lemma {:induction false} MatchMeansEqual(b: Buckets, log: Tree, c: Buckets, log': Tree)
    requires NoVolatileIds(b) && NoVolatileIds(c)
    ensures Agree(StateTree(b, log), StateTree(c, log')) <==> SameDictionaries(b, c)
  {
    MatchIff(b, log, c, log');
    KeptIsAll(b, c);
  }

  // ---- Workloads that avoid the volatile names -----------------------------

  /** None of the IDs a request can file something under is a volatile name; a table's key has a colon in it anyway. */
  predicate AvoidsNames(op: Op) {
    match op
    case BookVenueSlot(v, _) => !Volatile(v)
    case BookTicket(m, seat, _) => !Volatile(m) && !Volatile(seat)
    case AssignVolunteer(volunteer, _) => !Volatile(volunteer)
    case DispatchShuttle(id, _, _, _) => !Volatile(id)
    case SubscribeToUpdates(_, topic) => !Volatile(topic)
    case PushLiveEvent(m, _, _) => !Volatile(m)
    case UpdateCountryScore(c, _) => !Volatile(c)
    case AllocateStream(stream, _) => !Volatile(stream)
    case GoLive(m, stream, _) => !Volatile(m) && !Volatile(stream)
    case _ => true
  }

  lemma ColonIsPlain(key: string)
    requires ':' in key
    ensures !Volatile(key)
  {
    assert ':' !in "log" && ':' !in "updated_at" && ':' !in "ts";
  }

  lemma MatchFiled(b: Buckets, m: string, entry: Match)
    requires NoVolatileIds(b) && !Volatile(m) && NoVolatileKeys(entry.seats)
    ensures NoVolatileIds(b.(matches := b.matches[m := entry]))
  {
  }

  lemma MatchClean(b: Buckets, m: string)
    requires NoVolatileIds(b)
    ensures NoVolatileKeys(Semantics.MatchOf(b, m).seats)
  {
  }

  lemma TicketAvoids(ref: Roster, b: Buckets, m: string, seat: string, user: string)
    requires NoVolatileIds(b) && !Volatile(m) && !Volatile(seat)
    ensures NoVolatileIds(Semantics.BookTicket(ref, b, m, seat, user).buckets)
  {
    var entry := Semantics.MatchOf(b, m);
    MatchClean(b, m);
    MatchFiled(b, m, entry);
    MatchFiled(b, m, entry.(seats := entry.seats[seat := user]));
  }

  lemma StatusAvoids(b: Buckets, m: string, status: string)
    requires NoVolatileIds(b) && !Volatile(m)
    ensures NoVolatileIds(Semantics.SetStatus(b, m, status))
  {
    MatchClean(b, m);
    MatchFiled(b, m, Semantics.MatchOf(b, m).(status := Some(status)));
  }

  lemma TableAvoids(ref: Roster, b: Buckets, athlete: string, restaurant: string, party: int)
    requires NoVolatileIds(b)
    ensures NoVolatileIds(Semantics.ReserveRestaurantTable(ref, b, athlete, restaurant, party).buckets)
  {
    var key := restaurant + ":" + athlete;
    assert key[|restaurant|] == ':';
    ColonIsPlain(key);
  }

  lemma MatchesAvoid(ref: Roster, op: Op, b: Buckets)
    requires NoVolatileIds(b) && AvoidsNames(op) && (op.BookTicket? || op.PushLiveEvent? || op.GoLive?)
    ensures NoVolatileIds(Semantics.Apply(ref, op, b).buckets)
  {
    match op {
      case BookTicket(m, seat, user) => TicketAvoids(ref, b, m, seat, user);
      case PushLiveEvent(m, e, _) => StatusAvoids(b, m, e);
      case GoLive(m, stream, _) => StatusAvoids(b, m, "live");
    }
  }

  lemma OthersAvoid(ref: Roster, op: Op, b: Buckets)
    requires NoVolatileIds(b) && AvoidsNames(op) && !op.BookTicket? && !op.PushLiveEvent? && !op.GoLive?
    ensures NoVolatileIds(Semantics.Apply(ref, op, b).buckets)
  {
    if op.ReserveRestaurantTable? {
      TableAvoids(ref, b, op.athleteId, op.restaurantId, op.partySize);
    } else if op.DispatchShuttle? {
      Semantics.DispatchOf(b, op.shuttleId, op.route, BoardingOf(op), CapacityOf(op));
    }
  }

  /** A workload whose IDs avoid the volatile names replays to states whose IDs do. */
  lemma {:induction false} ReplayAvoids(ref: Roster, ops: seq<Op>)
    requires forall op :: op in ops ==> AvoidsNames(op)
    ensures NoVolatileIds(Semantics.Replay(ref, ops).buckets)
  {
    if ops != [] {
      var init, op := ops[..|ops| - 1], ops[|ops| - 1];
      ReplayAvoids(ref, init);
      var b := Semantics.Replay(ref, init).buckets;
      if op.BookTicket? || op.PushLiveEvent? || op.GoLive? {
        MatchesAvoid(ref, op, b);
      } else {
        OthersAvoid(ref, op, b);
      }
    }
  }

  /** So for two such workloads MATCH says that their replays end in the same nine buckets. */
  lemma {:induction false} MatchOfWorkloads(ref: Roster, ops: seq<Op>, log: Tree, other: seq<Op>, log': Tree)
    requires forall op :: op in ops || op in other ==> AvoidsNames(op)
    ensures var b, c := Semantics.Replay(ref, ops).buckets, Semantics.Replay(ref, other).buckets;
            Agree(StateTree(b, log), StateTree(c, log')) <==> SameDictionaries(b, c)
  {
    ReplayAvoids(ref, ops);
    ReplayAvoids(ref, other);
    MatchMeansEqual(Semantics.Replay(ref, ops).buckets, log, Semantics.Replay(ref, other).buckets, log');
  }

  // ---- A name the gate does not see ----------------------------------------

  lemma KeepIgnores<V(!new)>(m: map<string, V>, id: string, v: V, trim: V -> V)
    requires Volatile(id) && id !in m
    ensures Keep(m[id := v], trim) == Keep(m, trim)
    ensures m[id := v] != m
  {
    assert id in m[id := v];
  }

  /** Without that condition it does not: a match filed under a volatile name, "log" say, is invisible to the gate. */
  lemma {:induction false} InvisibleMatch(b: Buckets, id: string, entry: Match, log: Tree)
    requires Volatile(id) && id !in b.matches
    ensures Agree(StateTree(b.(matches := b.matches[id := entry]), log), StateTree(b, log))
    ensures !SameDictionaries(b.(matches := b.matches[id := entry]), b)
  {
    var c := b.(matches := b.matches[id := entry]);
    KeepIgnores(b.matches, id, entry, TrimSeats);
    forall i: nat | i < |BUCKET_NAMES| ensures SameBucket(c, b, i) {}
    MatchIff(c, log, b, log);
  }

  /** The names the gate is blind to are exactly these three: one more match goes unseen only under one of them. */
  lemma {:induction false} UnseenIff(b: Buckets, id: string, entry: Match, log: Tree)
    requires id !in b.matches
    ensures Agree(StateTree(b.(matches := b.matches[id := entry]), log), StateTree(b, log)) <==>
            id in ["log", "updated_at", "ts"]
  {
    var c := b.(matches := b.matches[id := entry]);
    if Volatile(id) {
      InvisibleMatch(b, id, entry, log);
    } else {
      MatchIff(c, log, b, log);
      MatchSeen(b, id, entry);
    }
  }

  lemma MatchSeen(b: Buckets, id: string, entry: Match)
    requires !Volatile(id) && id !in b.matches
    ensures !SameKept(b.(matches := b.matches[id := entry]), b)
  {
    var c := b.(matches := b.matches[id := entry]);
    assert id in Keep(c.matches, TrimSeats) && id !in Keep(b.matches, TrimSeats);
    assert !SameBucket(c, b, 1);
  }

  /** So a replayed workload can go unnoticed: after one push for a match "log" the gate still sees a fresh state. */
  lemma GateMissesLog(ref: Roster, log: Tree, log': Tree)
    ensures var b := Semantics.Replay(ref, [PushLiveEvent("log", "live", None)]).buckets;
            && Agree(StateTree(b, log), StateTree(EMPTY_BUCKETS, log'))
            && !SameDictionaries(b, EMPTY_BUCKETS)
  {
    var op := PushLiveEvent("log", "live", None);
    var entry := Semantics.EMPTY_MATCH.(status := Some("live"));
    assert [op][..0] == [];
    assert Semantics.Replay(ref, [op]).buckets == EMPTY_BUCKETS.(matches := map["log" := entry]);
    assert EMPTY_BUCKETS.matches["log" := entry] == map["log" := entry];
    InvisibleMatch(EMPTY_BUCKETS, "log", entry, log);
    LogsIgnored(EMPTY_BUCKETS, log, log');
  }

  lemma LogsIgnored(b: Buckets, log: Tree, log': Tree)
    ensures Agree(StateTree(b, log), StateTree(b, log'))
  {
    MatchIff(b, log, b, log');
  }

  /**
   * Replayed one request at a time, any workload ends in a MATCH between the monolith and the core, whatever the
   * logs.
   */
  lemma {:induction false} ReplaysMatch(ref: Roster, ops: seq<Op>, log: Tree, log': Tree)
    ensures Agree(StateTree(Monolith.Replay(ref, ops).buckets, log),
                  StateTree(Semantics.Replay(ref, ops).buckets, log'))
  {
    var b := Semantics.Replay(ref, ops).buckets;
    Monolith.SameBuckets(ref, ops);
    LogsIgnored(b, log, log');
  }

  /**
   * The whole gate: replay the workload in a fresh monolith and through an empty store, dump both, compare. There is no
   * verdict if a corrupt highlight stopped a replay; otherwise the verdict is MATCH.
   */
  method Gate(ref: Roster, events: seq<Op>, txn: bool, log: Tree, log': Tree) returns (verdict: Option<bool>)
    ensures verdict.None? <==> exists e :: e in events && Semantics.Aborts(e)
    ensures verdict.Some? ==> verdict.value
  {
    var server := new Monolith.Server();
    var _, died := server.RunWorkload(ref, events);
    if died { return None; }
    var store := new Storage.Store();
    var served, replies := store.RunWorkload(ref, events, txn, []);
    assert served == |events|;
    assert [] + events[..served] == events;
    ReplaysMatch(ref, events, log, log');
    return Some(Strip(StateTree(server.Globals(), log)) == Strip(StateTree(store.Current().buckets, log')));
  }
}
