/** The medal projection without its recurrence: a closed form of every draw, and what the seed and the count are. */
module MedalClosedForm {
  import opened Domain
  import opened MedalProjection
  import Semantics

  /** 1103515245 to the power n. */
  ghost function Power(n: nat): int {
    if n == 0 then 1 else 1103515245 * Power(n - 1)
  }

  /** The sum of the powers below n. */
  ghost function Series(n: nat): int {
    if n == 0 then 0 else Series(n - 1) + Power(n - 1)
  }

  lemma {:induction false} SeriesIsGeometric(n: nat)
    ensures 1103515244 * Series(n) == Power(n) - 1
  {
    if n > 0 { SeriesIsGeometric(n - 1); }
  }

  lemma Multiplied(p: int, x: int, s: int)
    ensures 1103515245 * (p * x + 12345 * s) + 12345 == (1103515245 * p) * x + 12345 * (1103515245 * s + 1)
  {
    assert 1103515245 * (p * x) == (1103515245 * p) * x;
  }

  lemma {:induction false} OrbitClosedForm(x: int, n: nat)
    ensures Orbit(x, n) == Power(n) * x + 12345 * Series(n)
  {
    if n > 0 {
      OrbitClosedForm(x, n - 1);
      Multiplied(Power(n - 1), x, Series(n - 1));
      SeriesIsGeometric(n);
      SeriesIsGeometric(n - 1);
    }
  }

  /** The n-th draw from any seed. */
  lemma {:induction false} DrawClosedForm(x: nat, n: nat)
    requires n > 0
    ensures Iterate(x, n) == (Power(n) * x + 12345 * Series(n)) % 0x8000_0000
  {
    IterateIsOrbit(x, n);
    MaskedAfterDraw(x, n);
    OrbitClosedForm(x, n);
  }

  /** Whether the n-th draw from a seed counts as gold, by the closed form. */
  ghost predicate GoldAt(seed: nat, n: nat) {
    (Power(n) * seed + 12345 * Series(n)) % 0x8000_0000 % 1000 < 5
  }

  ghost function GoldDraws(seed: nat, n: nat): set<nat> { set k: nat | 0 < k <= n && GoldAt(seed, k) }

  /** The projection counts the draws that are gold by the closed form. */
  lemma {:induction false} ProjectionCounts(x: nat, n: nat)
    ensures GoldCount(x, n) == |GoldDraws(x, n)|
  {
    if n == 0 {
      assert GoldDraws(x, 0) == {};
    } else {
      ProjectionCounts(x, n - 1);
      DrawClosedForm(x, n);
      assert GoldDraws(x, n) == GoldDraws(x, n - 1) + (if GoldAt(x, n) then {n} else {});
    }
  }

  // ---- The seed ------------------------------------------------------------

  lemma {:induction false} PointsAdd(a: string, b: string)
    ensures CodePointSum(a + b) == CodePointSum(a) + CodePointSum(b)
  {
    if b == "" {
      assert a + b == a;
    } else {
      PointsAdd(a, b[..|b| - 1]);
      assert (a + b)[..|a + b| - 1] == a + b[..|b| - 1];
    }
  }

  lemma OnePoint(c: char)
    ensures CodePointSum([c]) == c as nat
  {
    assert [c][..0] == "";
  }

  function Without(s: string, i: nat): string
    requires i < |s|
  {
    s[..i] + s[i + 1..]
  }

  lemma WithoutOne(s: string, i: nat)
    requires i < |s|
    ensures multiset(Without(s, i)) == multiset(s) - multiset{s[i]}
  {
    assert s == s[..i] + ([s[i]] + s[i + 1..]);
  }

  lemma PointsBetween(a: string, c: char, b: string)
    ensures CodePointSum(a + ([c] + b)) == CodePointSum(a + b) + c as nat
  {
    PointsAdd(a, [c] + b);
    PointsAdd([c], b);
    PointsAdd(a, b);
    OnePoint(c);
  }

  lemma Rejoined(s: string, i: nat)
    requires i < |s|
    ensures s[..i] + ([s[i]] + s[i + 1..]) == s
  {
  }

  lemma PointsWithout(s: string, i: nat)
    requires i < |s|
    ensures CodePointSum(s) == CodePointSum(Without(s, i)) + s[i] as nat
  {
    var a, b := s[..i], s[i + 1..];
    PointsBetween(a, s[i], b);
    Rejoined(s, i);
  }

  lemma {:induction false} PointsAnyOrder(a: string, b: string)
    requires multiset(a) == multiset(b)
    ensures CodePointSum(a) == CodePointSum(b)
  {
    if a == "" {
      assert |multiset(b)| == |b|;
    } else {
      assert a[0] in multiset(b);
      var i :| 0 <= i < |b| && b[i] == a[0];
      WithoutOne(a, 0);
      WithoutOne(b, i);
      PointsWithout(a, 0);
      PointsWithout(b, i);
      PointsAnyOrder(Without(a, 0), Without(b, i));
    }
  }

  /** A country's characters can be summed in any order. */
  lemma {:induction false} SeedAnyOrder(a: string, b: string)
    requires multiset(a) == multiset(b)
    ensures Seed(a) == Seed(b)
  {
    PointsAnyOrder(a, b);
  }

  /** The seed of a text put together from a character and a rest, and of the empty one: code points added, 0 made 1. */
  lemma {:induction false} SeedAddsPoints(c: char, rest: string)
    ensures CodePointSum("") == 0 && CodePointSum([c] + rest) == c as nat + CodePointSum(rest)
    ensures Seed(rest) == if CodePointSum(rest) == 0 then 1 else CodePointSum(rest)
  {
    PointsAdd([c], rest);
    OnePoint(c);
  }

  // ---- Replies -------------------------------------------------------------

  /** The reply to a projection, with 200000 draws when no number is asked for and none for a negative number. */
  lemma {:induction false} ProjectionReply(ref: Roster, b: Buckets, country: string, iterations: Option<int>)
    ensures var asked := if iterations.Some? then iterations.value else 200000;
            var gold := |GoldDraws(Seed(country), if asked < 0 then 0 else asked)|;
            var e := Semantics.Apply(ref, Op.ProjectMedals(country, iterations), b);
            e.reply == Some(Projection(true, country, asked, gold)) && e.buckets == b && e.entries == []
  {
    ProjectionCounts(Seed(country), Draws(GetOr(iterations, 200000)));
  }

  lemma JapanAndFriends()
    ensures Seed("JPN") == 232 && Seed("AAE") == 199 && Seed("") == 1
  {
    SeedAddsPoints('J', "PN");
    SeedAddsPoints('P', "N");
    SeedAddsPoints('A', "AE");
    SeedAddsPoints('A', "E");
    OnePoint('N');
    OnePoint('E');
    assert "JPN" == ['J'] + "PN" && "PN" == ['P'] + "N" && "AAE" == ['A'] + "AE" && "AE" == ['A'] + "E";
  }

  lemma OneDraw(x: nat)
    ensures GoldCount(x, 1) == if (1103515245 * x + 12345) % 0x8000_0000 % 1000 < 5 then 1 else 0
  {
    assert GoldCount(x, 0) == 0 && Iterate(x, 0) == x && Iterate(x, 1) == Draw(x);
  }

  /** Two projections in figures: the first draw for JPN is 464995073, the one for AAE is 556214004. */
  lemma {:induction false} ProjectionSamples(ref: Roster, b: Buckets)
    ensures Semantics.Apply(ref, Op.ProjectMedals("JPN", Some(1)), b).reply == Some(Projection(true, "JPN", 1, 0))
    ensures Semantics.Apply(ref, Op.ProjectMedals("AAE", Some(1)), b).reply == Some(Projection(true, "AAE", 1, 1))
  {
    JapanAndFriends();
    OneDraw(232);
    OneDraw(199);
    assert (1103515245 * 232 + 12345) % 0x8000_0000 == 464995073;
    assert (1103515245 * 199 + 12345) % 0x8000_0000 == 556214004;
  }
}
