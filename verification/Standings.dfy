/** The medal table: ranking rows by points, golds, silvers and country, and why the result is canonical. */
module Standings {
  import opened Domain

  /** Strict code-point order on strings. */
  predicate StringLess(a: string, b: string) {
    if b == "" then false
    else if a == "" then true
    else a[0] < b[0] || (a[0] == b[0] && StringLess(a[1..], b[1..]))
  }

  /** The order of the sort key (-points, -gold, -silver, country). */
  predicate Before(r: Row, q: Row) {
    || r.points > q.points
    || (r.points == q.points &&
        (|| r.gold > q.gold
         || (r.gold == q.gold &&
             (|| r.silver > q.silver
              || (r.silver == q.silver && StringLess(r.country, q.country))))))
  }

  lemma {:induction false} StringTrichotomy(a: string, b: string)
    ensures a == b || StringLess(a, b) || StringLess(b, a)
    ensures !(StringLess(a, b) && StringLess(b, a)) && !StringLess(a, a)
  {
    if a != "" && b != "" {
      StringTrichotomy(a[1..], b[1..]);
      StringTrichotomy(a[1..], a[1..]);
      if a[0] == b[0] && a[1..] == b[1..] {
        assert a == [a[0]] + a[1..] == b;
      }
    } else if a != "" {
      StringTrichotomy(a[1..], a[1..]);
    }
  }

  lemma {:induction false} StringTransitive(a: string, b: string, c: string)
    requires StringLess(a, b) && StringLess(b, c)
    ensures StringLess(a, c)
  {
    if a != "" && a[0] == b[0] == c[0] { StringTransitive(a[1..], b[1..], c[1..]); }
  }

  lemma BeforeTrichotomy(r: Row, q: Row)
    ensures r.country != q.country ==> Before(r, q) || Before(q, r)
    ensures !(Before(r, q) && Before(q, r)) && !Before(r, r)
  {
    StringTrichotomy(r.country, q.country);
    StringTrichotomy(r.country, r.country);
  }

  lemma BeforeTransitive(r: Row, q: Row, p: Row)
    requires Before(r, q) && Before(q, p)
    ensures Before(r, p)
  {
    if StringLess(r.country, q.country) && StringLess(q.country, p.country) {
      StringTransitive(r.country, q.country, p.country);
    }
  }

  // ---- Building the ranking ------------------------------------------------

  function RowOf(t: ScoreTable, country: string): Row
    requires country in t.entries
  {
    var s := t.entries[country];
    Row(country, s.gold, s.silver, s.bronze, s.points, 0)
  }

  /** One row per entry, in insertion order. */
  function RowsOf(t: ScoreTable): seq<Row> {
    seq(|t.order|, i requires 0 <= i < |t.order| => RowOf(t, t.order[i]))
  }

  predicate Sorted(rows: seq<Row>) {
    forall i, j :: 0 <= i < j < |rows| ==> Before(rows[i], rows[j])
  }

  function Insert(r: Row, rows: seq<Row>): seq<Row> {
    if rows == [] then [r]
    else if Before(r, rows[0]) then [r] + rows
    else [rows[0]] + Insert(r, rows[1..])
  }

  function SortRows(rows: seq<Row>): seq<Row> {
    if rows == [] then [] else Insert(rows[0], SortRows(rows[1..]))
  }

  function Ranked(rows: seq<Row>): seq<Row> {
    seq(|rows|, i requires 0 <= i < |rows| => rows[i].(rank := i + 1))
  }

  function Ranking(t: ScoreTable): seq<Row> {
    Ranked(SortRows(RowsOf(t)))
  }

  lemma {:induction false} InsertElements(r: Row, rows: seq<Row>)
    ensures |Insert(r, rows)| == |rows| + 1
    ensures forall x :: x in Insert(r, rows) <==> x == r || x in rows
  {
    if rows != [] {
      assert rows == [rows[0]] + rows[1..];
      if !Before(r, rows[0]) { InsertElements(r, rows[1..]); }
    }
  }

  lemma {:induction false} InsertSorted(r: Row, rows: seq<Row>)
    requires Sorted(rows)
    requires forall x :: x in rows ==> x.country != r.country
    ensures Sorted(Insert(r, rows))
  {
    if rows != [] {
      if Before(r, rows[0]) {
        forall i | 0 < i < |rows| ensures Before(r, rows[i]) { BeforeTransitive(r, rows[0], rows[i]); }
      } else {
        var rest := rows[1..];
        InsertSorted(r, rest);
        InsertElements(r, rest);
        BeforeTrichotomy(r, rows[0]);
        forall x | x in Insert(r, rest) ensures Before(rows[0], x) {
          if x != r { assert x in rest; }
        }
        var tail := Insert(r, rest);
        forall i | 0 <= i < |tail| ensures Before(rows[0], tail[i]) { assert tail[i] in tail; }
      }
    }
  }

  predicate DistinctCountries(rows: seq<Row>) {
    forall i, j :: 0 <= i < j < |rows| ==> rows[i].country != rows[j].country
  }

  lemma {:induction false} SortRowsSorts(rows: seq<Row>)
    requires DistinctCountries(rows)
    ensures Sorted(SortRows(rows))
    ensures |SortRows(rows)| == |rows|
    ensures forall x :: x in SortRows(rows) <==> x in rows
  {
    if rows != [] {
      SortRowsSorts(rows[1..]);
      InsertElements(rows[0], SortRows(rows[1..]));
      InsertSorted(rows[0], SortRows(rows[1..]));
      assert rows == [rows[0]] + rows[1..];
    }
  }

  /** What the standings promise, without naming a sorting algorithm or the insertion order. */
  ghost predicate IsStandings(scores: map<string, Score>, ranking: seq<Row>) {
    && (forall i :: 0 <= i < |ranking| ==>
          && ranking[i].country in scores
          && var s := scores[ranking[i].country];
             ranking[i] == Row(ranking[i].country, s.gold, s.silver, s.bronze, s.points, i + 1))
    && Sorted(ranking)
    && (forall c :: c in scores ==> exists i :: 0 <= i < |ranking| && ranking[i].country == c)
  }

  lemma {:induction false} RankingIsStandings(t: ScoreTable)
    ensures IsStandings(t.entries, Ranking(t))
    ensures |Ranking(t)| == |t.order|
  {
    var rows := RowsOf(t);
    SortRowsSorts(rows);
    var sorted := SortRows(rows);
    forall i | 0 <= i < |sorted|
      ensures sorted[i].country in t.entries && sorted[i] == RowOf(t, sorted[i].country)
    {
      assert sorted[i] in rows;
    }
    forall c | c in t.entries ensures exists i :: 0 <= i < |sorted| && Ranked(sorted)[i].country == c {
      var i := RankOf(t, sorted, c);
    }
  }

  lemma RankOf(t: ScoreTable, sorted: seq<Row>, c: string) returns (i: nat)
    requires c in t.entries && forall x :: x in RowsOf(t) ==> x in sorted
    ensures i < |sorted| && Ranked(sorted)[i].country == c
  {
    var k :| 0 <= k < |t.order| && t.order[k] == c;
    assert RowsOf(t)[k] in sorted;
    i :| 0 <= i < |sorted| && sorted[i] == RowsOf(t)[k];
  }

  /** Code-point order, spelled out: a is a proper prefix of b, or smaller where they first differ. */
  lemma {:induction false} StringLessIff(a: string, b: string)
    ensures StringLess(a, b) <==>
            exists k: nat :: k <= |a| && k < |b| && a[..k] == b[..k] && (k < |a| ==> a[k] < b[k])
  {
    if StringLess(a, b) {
      var k := FirstDifference(a, b);
    }
    if k: nat :| k <= |a| && k < |b| && a[..k] == b[..k] && (k < |a| ==> a[k] < b[k]) { DifferenceDecides(a, b, k); }
  }

  lemma {:induction false} FirstDifference(a: string, b: string) returns (k: nat)
    requires StringLess(a, b)
    ensures k <= |a| && k < |b| && a[..k] == b[..k] && (k < |a| ==> a[k] < b[k])
  {
    if a == "" || a[0] < b[0] {
      k := 0;
    } else {
      var l := FirstDifference(a[1..], b[1..]);
      k := l + 1;
      assert a[..k] == [a[0]] + a[1..][..l] && b[..k] == [b[0]] + b[1..][..l];
    }
  }

  lemma {:induction false} DifferenceDecides(a: string, b: string, k: nat)
    requires k <= |a| && k < |b| && a[..k] == b[..k] && (k < |a| ==> a[k] < b[k])
    ensures StringLess(a, b)
  {
    if k > 0 {
      assert a[0] == a[..k][0] == b[..k][0] == b[0];
      assert a[1..][..k - 1] == a[..k][1..] && b[1..][..k - 1] == b[..k][1..];
      DifferenceDecides(a[1..], b[1..], k - 1);
    }
  }

  /**
   * What it takes to be ranked above somebody: no fewer points; among equals no fewer golds; among those no fewer
   * silvers; and among those the smaller code.
   */
  lemma {:induction false} RankedAbove(scores: map<string, Score>, ranking: seq<Row>, i: nat, j: nat)
    requires IsStandings(scores, ranking) && i < j < |ranking|
    ensures var r, q := ranking[i], ranking[j];
            && r.points >= q.points
            && (r.points == q.points ==> r.gold >= q.gold)
            && (r.points == q.points && r.gold == q.gold ==> r.silver >= q.silver)
            && (r.points == q.points && r.gold == q.gold && r.silver == q.silver ==>
                  exists k: nat :: k <= |r.country| && k < |q.country| && r.country[..k] == q.country[..k]
                                   && (k < |r.country| ==> r.country[k] < q.country[k]))
            && r.rank == i + 1
  {
    assert Before(ranking[i], ranking[j]);
    StringLessIff(ranking[i].country, ranking[j].country);
  }

  lemma StandingsDistinct(scores: map<string, Score>, a: seq<Row>, i: nat, j: nat)
    requires IsStandings(scores, a) && i < j < |a|
    ensures a[i].country != a[j].country
  {
    assert Before(a[i], a[j]);
    StringTrichotomy(a[i].country, a[j].country);
  }

  /** The country in b's k-th row is found in a no earlier than k when both agree on the first k rows. */
  lemma Find(scores: map<string, Score>, a: seq<Row>, b: seq<Row>, k: nat) returns (i: nat)
    requires IsStandings(scores, a) && IsStandings(scores, b)
    requires k < |b| && k <= |a| && a[..k] == b[..k]
    ensures k <= i < |a| && a[i].country == b[k].country
  {
    assert b[k].country in scores;
    i :| 0 <= i < |a| && a[i].country == b[k].country;
    if i < k {
      assert a[i] == a[..k][i] == b[..k][i] == b[i];
      StandingsDistinct(scores, b, i, k);
    }
  }

  lemma {:induction false} StandingsPrefix(scores: map<string, Score>, a: seq<Row>, b: seq<Row>, k: nat)
    requires IsStandings(scores, a) && IsStandings(scores, b)
    requires k <= |a| && k <= |b|
    ensures a[..k] == b[..k]
  {
    if k > 0 {
      StandingsPrefix(scores, a, b, k - 1);
      var i := Find(scores, a, b, k - 1);
      var j := Find(scores, b, a, k - 1);
      NextRow(scores, a, b, k - 1, i, j);
      ExtendPrefix(a, b, k - 1);
    }
  }

  lemma ExtendPrefix(a: seq<Row>, b: seq<Row>, k: nat)
    requires k < |a| && k < |b|
    requires a[..k] == b[..k] && a[k] == b[k]
    ensures a[..k + 1] == b[..k + 1]
  {
    assert a[..k + 1] == a[..k] + [a[k]];
    assert b[..k + 1] == b[..k] + [b[k]];
  }

  lemma NextRow(scores: map<string, Score>, a: seq<Row>, b: seq<Row>, k: nat, i: nat, j: nat)
    requires IsStandings(scores, a) && IsStandings(scores, b)
    requires k <= i < |a| && k <= j < |b|
    requires a[i].country == b[k].country && b[j].country == a[k].country
    ensures a[k] == b[k]
  {
    if i > k && j > k {
      assert Before(a[k], a[i]) && Before(b[k], b[j]);
      StringTrichotomy(a[k].country, b[k].country);
    }
  }

  /** The scores alone determine the standings. */
  lemma {:induction false} StandingsUnique(scores: map<string, Score>, a: seq<Row>, b: seq<Row>)
    requires IsStandings(scores, a) && IsStandings(scores, b)
    ensures a == b
  {
    if |a| < |b| {
      StandingsPrefix(scores, a, b, |a|);
      var i := Find(scores, a, b, |a|);
    } else if |b| < |a| {
      StandingsPrefix(scores, b, a, |b|);
      var i := Find(scores, b, a, |b|);
    } else {
      StandingsPrefix(scores, a, b, |a|);
      assert a == a[..|a|] == b[..|b|] == b;
    }
  }

  /** Insertion order is irrelevant: tables with the same scores rank identically. */
  lemma {:induction false} RankingCanonical(t: ScoreTable, u: ScoreTable)
    requires t.entries == u.entries
    ensures Ranking(t) == Ranking(u)
  {
    RankingIsStandings(t);
    RankingIsStandings(u);
    StandingsUnique(t.entries, Ranking(t), Ranking(u));
  }
}
