/** The linear congruential generator behind `project_medals`, and why its gold count is periodic. */
module MedalProjection {

  const MODULUS: nat := 0x8000_0000

  function Lcg(x: int): int { 1103515245 * x + 12345 }

  /** Masking a non-negative integer with 0x7FFFFFFF is reduction modulo 2^31. */
  function Mask(x: int): nat { x % 0x8000_0000 }

  function Draw(x: nat): nat { Mask(Lcg(x)) }

  function Iterate(x: nat, n: nat): nat {
    if n == 0 then x else Draw(Iterate(x, n - 1))
  }

  predicate IsGold(x: nat) { x % 1000 < 5 }

  /** Gold outcomes among draws 1..n from seed x. */
  function GoldCount(x: nat, n: nat): nat {
    if n == 0 then 0 else GoldCount(x, n - 1) + (if IsGold(Iterate(x, n)) then 1 else 0)
  }

  function CodePointSum(s: string): nat {
    if s == "" then 0 else CodePointSum(s[..|s| - 1]) + s[|s| - 1] as nat
  }

  /** `sum(ord(c) for c in country) or 1`. */
  function Seed(country: string): nat {
    if CodePointSum(country) == 0 then 1 else CodePointSum(country)
  }

  /** `range(iterations)`: a negative count draws nothing. */
  function Draws(iterations: int): nat {
    if iterations < 0 then 0 else iterations
  }

  method ProjectMedals(country: string, iterations: int) returns (gold: nat)
    ensures gold == GoldCount(Seed(country), Draws(iterations))
  {
    var x := 0;
    for j := 0 to |country|
      invariant x == CodePointSum(country[..j])
    {
      assert country[..j + 1][..j] == country[..j];
      x := x + country[j] as nat;
    }
    assert country[..|country|] == country;
    if x == 0 { x := 1; }
    gold := 0;
    var i := 0;
    while i < iterations
      invariant 0 <= i <= Draws(iterations)
      invariant x == Iterate(Seed(country), i)
      invariant gold == GoldCount(Seed(country), i)
    {
      x := Mask(1103515245 * x + 12345);
      if x % 1000 < 5 { gold := gold + 1; }
      i := i + 1;
    }
  }

  // ---- The unmasked orbit --------------------------------------------------

  ghost function Orbit(x: int, n: nat): int {
    if n == 0 then x else Lcg(Orbit(x, n - 1))
  }

  lemma {:induction false} OrbitSplits(x: int, m: nat, n: nat)
    ensures Orbit(x, m + n) == Orbit(Orbit(x, m), n)
  {
    if n > 0 { OrbitSplits(x, m, n - 1); }
  }

  lemma MaskShift(x: int, z: int)
    ensures Mask(x + 0x8000_0000 * z) == Mask(x)
  {
  }

  lemma LcgRespectsMask(p: int, q: int)
    requires Mask(p) == Mask(q)
    ensures Mask(Lcg(p)) == Mask(Lcg(q))
  {
    var d := p / 0x8000_0000 - q / 0x8000_0000;
    assert p == q + 0x8000_0000 * d;
    MaskShift(Lcg(q), 1103515245 * d);
  }

  lemma {:induction false} IterateIsOrbit(x: nat, n: nat)
    ensures Mask(Iterate(x, n)) == Mask(Orbit(x, n))
  {
    if n > 0 {
      IterateIsOrbit(x, n - 1);
      LcgRespectsMask(Iterate(x, n - 1), Orbit(x, n - 1));
      MaskTwice(Lcg(Iterate(x, n - 1)));
    }
  }

  lemma MaskTwice(x: int)
    ensures Mask(Mask(x)) == Mask(x)
  {
  }

  ghost function Pow2(k: nat): nat {
    if k == 0 then 1 else 2 * Pow2(k - 1)
  }

  predicate Odd(n: int) { n % 2 == 1 }

  /** x -> (1 + 4pt)x + pu: the shape of p unmasked draws when p is a power of two. */
  ghost function Affine(p: int, t: int, u: int, x: int): int {
    x + p * (4 * (t * x) + u)
  }

  /** Twice p draws is 2p draws with both coefficients scaled by the odd number 1 + 2tp. */
  lemma AffineTwice(p: int, t: int, u: int, x: int)
    ensures var f := 1 + 2 * (t * p);
            Affine(p, t, u, Affine(p, t, u, x)) == Affine(2 * p, t * f, u * f, x)
  {
  }

  lemma Distribute(a: int, b: int, c: int)
    ensures a * (b + c) == a * b + a * c
  {
  }

  lemma OddProduct(a: int, b: int)
    requires Odd(a) && Odd(b)
    ensures Odd(a * b)
  {
    var c := b / 2;
    assert b == 2 * c + 1;
    Distribute(a, 2 * c, 1);
    DoubleProduct(a, c);
    OddSum(a * c, a);
  }

  lemma DoubleProduct(a: int, c: int)
    ensures a * (2 * c) == 2 * (a * c)
  {
  }

  lemma OddSum(h: int, a: int)
    requires Odd(a)
    ensures Odd(2 * h + a)
  {
  }

  /** 2^k unmasked draws are such a map, with an odd u. */
  lemma {:induction false} PowerOfTwoDraws(k: nat) returns (t: int, u: int)
    ensures Odd(u)
    ensures forall x: int :: Orbit(x, Pow2(k)) == Affine(Pow2(k), t, u, x)
  {
    if k == 0 {
      t, u := 275878811, 12345;
      forall x: int ensures Orbit(x, Pow2(0)) == Affine(Pow2(0), t, u, x) {
        assert Orbit(x, 1) == Lcg(Orbit(x, 0));
      }
    } else {
      var t0, u0 := PowerOfTwoDraws(k - 1);
      var p := Pow2(k - 1);
      var f := 1 + 2 * (t0 * p);
      t, u := t0 * f, u0 * f;
      OddProduct(u0, f);
      forall x: int ensures Orbit(x, Pow2(k)) == Affine(Pow2(k), t, u, x) {
        OrbitSplits(x, p, p);
        AffineTwice(p, t0, u0, x);
      }
    }
  }

  lemma OneMoreBlock(x: int, p: int, t: int, u: int, v: int, y: int)
    requires y == x + p * v && Odd(u)
    ensures Affine(p, t, u, y) == x + p * (v + (4 * (t * y) + u))
    ensures Odd(v + (4 * (t * y) + u)) <==> !Odd(v)
  {
    Distribute(p, v, 4 * (t * y) + u);
    EvenShift(v, u, 2 * (t * y));
  }

  lemma EvenShift(v: int, u: int, h: int)
    requires Odd(u)
    ensures Odd(v + (2 * h + u)) <==> !Odd(v)
  {
  }

  /** q blocks of 2^k draws move every state by 2^k times a number of q's parity. */
  lemma {:induction false} BlockDisplacement(x: int, k: nat, q: nat) returns (w: int)
    ensures Orbit(x, Pow2(k) * q) == x + Pow2(k) * w
    ensures Odd(w) <==> Odd(q)
  {
    var p := Pow2(k);
    if q == 0 {
      w := 0;
      assert p * q == 0;
    } else {
      var v := BlockDisplacement(x, k, q - 1);
      var n := p * (q - 1);
      assert p * q == n + p by { Distribute(p, q - 1, 1); }
      var y := Orbit(x, n);
      var t, u := PowerOfTwoDraws(k);
      OrbitSplits(x, n, p);
      OneMoreBlock(x, p, t, u, v, y);
      w := v + (4 * (t * y) + u);
    }
  }

  lemma {:induction false} OddPart(m: nat) returns (k: nat, q: nat)
    requires m > 0
    ensures m == Pow2(k) * q && Odd(q)
  {
    if m % 2 == 1 {
      k, q := 0, m;
    } else {
      k, q := OddPart(m / 2);
      k := k + 1;
      assert 2 * (Pow2(k - 1) * q) == Pow2(k) * q;
    }
  }

  lemma {:induction false} Pow2Splits(a: nat, b: nat)
    ensures Pow2(a + b) == Pow2(a) * Pow2(b)
  {
    if a > 0 {
      Pow2Splits(a - 1, b);
      assert 2 * (Pow2(a - 1) * Pow2(b)) == Pow2(a) * Pow2(b);
    }
  }

  lemma {:induction false} Pow2Positive(k: nat)
    ensures Pow2(k) > 0
  {
    if k > 0 { Pow2Positive(k - 1); }
  }

  lemma ModulusIsPow2()
    ensures Pow2(31) == 0x8000_0000
  {
    Pow2Splits(16, 15);
    Pow2Splits(8, 8);
    Pow2Splits(8, 7);
    assert Pow2(4) == 16;
    Pow2Splits(4, 4);
    Pow2Splits(4, 3);
  }

  lemma Cancel(p: int, a: int, b: int)
    requires p > 0 && p * a == p * b
    ensures a == b
  {
    Distribute(p, a - b, b);
    assert p * (a - b) == 0;
  }

  lemma NotDivisible(k: nat, w: int, z: int)
    requires k < 31 && Odd(w)
    ensures Pow2(k) * w != Pow2(31) * z
  {
    var p, r := Pow2(k), Pow2(30 - k);
    Pow2Splits(k, 31 - k);
    Regroup(p, r, z);
    Pow2Positive(k);
    ScaledOddAndEven(p, w, r * z);
  }

  lemma ScaledOddAndEven(p: int, w: int, h: int)
    requires p > 0 && Odd(w)
    ensures p * w != p * (2 * h)
  {
    if p * w == p * (2 * h) { Cancel(p, w, 2 * h); }
  }

  lemma Regroup(p: int, r: int, z: int)
    ensures (p * (2 * r)) * z == p * (2 * (r * z))
  {
    assert (2 * r) * z == 2 * (r * z);
  }

  lemma Associate(a: int, b: int, c: int)
    ensures (a * b) * c == a * (b * c)
  {
  }

  lemma WholePeriods(x: int, m: nat, k: nat, q: nat)
    requires k >= 31 && m == Pow2(k) * q
    ensures Mask(Orbit(x, m)) == Mask(x) && Mask(m) == 0
  {
    var w := BlockDisplacement(x, k, q);
    var r := Pow2(k - 31);
    assert Pow2(k) == 0x8000_0000 * r by { Pow2Splits(31, k - 31); ModulusIsPow2(); }
    Associate(0x8000_0000, r, q);
    Associate(0x8000_0000, r, w);
    MaskShift(x, r * w);
    MaskShift(0, r * q);
  }

  lemma PartPeriod(x: int, m: nat, k: nat, q: nat)
    requires k < 31 && m == Pow2(k) * q && Odd(q)
    ensures Mask(Orbit(x, m)) != Mask(x) && Mask(m) != 0
  {
    var w := BlockDisplacement(x, k, q);
    ModulusIsPow2();
    NotDivisible(k, q, m / 0x8000_0000);
    NotDivisible(k, w, Orbit(x, m) / 0x8000_0000 - x / 0x8000_0000);
  }

  /** The unmasked orbit returns to its residue after m draws exactly when 2^31 divides m. */
  lemma {:induction false} ReturnTime(x: int, m: nat)
    ensures Mask(Orbit(x, m)) == Mask(x) <==> Mask(m) == 0
  {
    if m > 0 {
      var k, q := OddPart(m);
      if k >= 31 { WholePeriods(x, m, k, q); } else { PartPeriod(x, m, k, q); }
    }
  }

  // ---- One cycle through all 2^31 states -----------------------------------

  lemma {:induction false} IterateSplits(x: nat, m: nat, n: nat)
    ensures Iterate(x, m + n) == Iterate(Iterate(x, m), n)
  {
    if n > 0 { IterateSplits(x, m, n - 1); }
  }

  /** Every state recurs, and exactly at the multiples of 2^31. */
  lemma {:induction false} FullPeriod(x: nat, m: nat)
    requires x < MODULUS
    ensures Iterate(x, m) == x <==> m % MODULUS == 0
  {
    IterateIsOrbit(x, m);
    ReturnTime(x, m);
    MaskedAfterDraw(x, m);
  }

  lemma MaskedAfterDraw(x: nat, m: nat)
    requires m > 0 || x < MODULUS
    ensures Iterate(x, m) < MODULUS
  {
  }

  lemma DistinctInOnePeriod(x: nat, i: nat, j: nat)
    requires 0 < i < j <= MODULUS
    ensures Iterate(x, i) != Iterate(x, j)
  {
    MaskedAfterDraw(x, i);
    IterateSplits(x, i, j - i);
    ReturnsLater(Iterate(x, i), j - i);
  }

  lemma ReturnsLater(y: nat, gap: nat)
    requires y < MODULUS && 0 < gap < MODULUS
    ensures Iterate(y, gap) != y
  {
    FullPeriod(y, gap);
  }

  ghost function Below(n: nat): (s: set<nat>)
    ensures forall y: nat :: y in s <==> y < n
    ensures |s| == n
  {
    if n == 0 then {} else Below(n - 1) + {n - 1}
  }

  ghost function Visited(x: nat, n: nat): set<nat> { set i: nat | 0 < i <= n :: Iterate(x, i) }

  lemma {:induction false} VisitedSize(x: nat, n: nat)
    requires n <= MODULUS
    ensures |Visited(x, n)| == n
  {
    if n > 0 {
      VisitedSize(x, n - 1);
      assert Visited(x, n) == Visited(x, n - 1) + {Iterate(x, n)};
      forall i | 0 < i < n ensures Iterate(x, i) != Iterate(x, n) { DistinctInOnePeriod(x, i, n); }
    }
  }

  lemma SubsetOfSameSize<T>(a: set<T>, b: set<T>)
    requires a <= b && |a| == |b|
    ensures a == b
  {
    assert b == a + (b - a);
    assert |b - a| == 0;
  }

  /** From any seed, 2^31 consecutive draws visit every 31-bit value once. */
  lemma {:induction false} SingleCycle(x: nat, period: nat)
    requires period == MODULUS
    ensures Visited(x, period) == Below(period)
    ensures forall i, j :: 0 < i < j <= period ==> Iterate(x, i) != Iterate(x, j)
  {
    forall i, j | 0 < i < j <= period ensures Iterate(x, i) != Iterate(x, j) { DistinctInOnePeriod(x, i, j); }
    forall i: nat | 0 < i <= period ensures Iterate(x, i) in Below(period) { MaskedAfterDraw(x, i); }
    VisitedSize(x, period);
    SubsetOfSameSize(Visited(x, period), Below(period));
  }

  /** The draw is a permutation of the 31-bit values. */
  lemma {:induction false} DrawIsPermutation(y: nat, period: nat)
    requires y < period == MODULUS
    ensures Draw(Iterate(y, period - 1)) == y
    ensures forall z: nat :: z < period && Draw(z) == y ==> z == Iterate(y, period - 1)
  {
    FullPeriod(y, period);
    forall z: nat | z < period && Draw(z) == y ensures z == Iterate(y, period - 1) {
      FullPeriod(z, period);
      assert Iterate(z, 1) == Draw(Iterate(z, 0));
      IterateSplits(z, 1, period - 1);
    }
  }

  // ---- Counting gold over one cycle ----------------------------------------

  ghost function Golds(s: set<nat>): set<nat> { set y | y in s && IsGold(y) }

  lemma GoldsAdd(s: set<nat>, y: nat)
    requires y !in s
    ensures |Golds(s + {y})| == |Golds(s)| + (if IsGold(y) then 1 else 0)
  {
    if IsGold(y) {
      assert Golds(s + {y}) == Golds(s) + {y};
    } else {
      assert Golds(s + {y}) == Golds(s);
    }
  }

  /** How many of 0..n-1 are gold: five in each full thousand, at most five in the rest. */
  function GoldShare(n: nat): nat {
    5 * (n / 1000) + (if n % 1000 < 5 then n % 1000 else 5)
  }

  lemma GoldShareStep(n: nat)
    ensures GoldShare(n + 1) == GoldShare(n) + (if IsGold(n) then 1 else 0)
  {
    var q, r := n / 1000, n % 1000;
    if r == 999 {
      assert (n + 1) / 1000 == q + 1 && (n + 1) % 1000 == 0;
    } else {
      assert (n + 1) / 1000 == q && (n + 1) % 1000 == r + 1;
    }
  }

  lemma GoldsBelowNext(n: nat)
    ensures |Golds(Below(n + 1))| == |Golds(Below(n))| + (if IsGold(n) then 1 else 0)
  {
    assert Below(n + 1) == Below(n) + {n};
    GoldsAdd(Below(n), n);
  }

  lemma {:induction false} GoldsBelow(n: nat)
    ensures |Golds(Below(n))| == GoldShare(n)
  {
    if n == 0 {
      assert Golds(Below(0)) == {};
    } else {
      GoldsBelow(n - 1);
      GoldsBelowNext(n - 1);
      GoldShareStep(n - 1);
    }
  }

  lemma {:induction false} GoldsVisited(x: nat, n: nat)
    requires n <= MODULUS
    ensures |Golds(Visited(x, n))| == GoldCount(x, n)
  {
    if n == 0 {
      assert Golds(Visited(x, 0)) == {};
    } else {
      GoldsVisited(x, n - 1);
      var y := Iterate(x, n);
      assert Visited(x, n) == Visited(x, n - 1) + {y};
      forall i | 0 < i < n ensures Iterate(x, i) != y { DistinctInOnePeriod(x, i, n); }
      GoldsAdd(Visited(x, n - 1), y);
    }
  }

  lemma {:induction false} GoldCountSplits(x: nat, m: nat, n: nat)
    ensures GoldCount(x, m + n) == GoldCount(x, m) + GoldCount(Iterate(x, m), n)
  {
    if n > 0 {
      GoldCountSplits(x, m, n - 1);
      IterateSplits(x, m, n);
    }
  }

  lemma {:induction false} GoldInOnePeriod(x: nat, period: nat)
    requires period == MODULUS
    ensures GoldCount(x, period) == GoldShare(period)
  {
    SingleCycle(x, period);
    GoldsVisited(x, period);
    GoldsBelow(period);
  }

  lemma CycleShare(period: nat)
    requires period == MODULUS
    ensures GoldShare(period) == 10737420
  {
    assert period / 1000 == 2147483 && period % 1000 == 648;
  }

  /** Raising the iteration count by 2^31 raises the projection by exactly 10737420, whatever the seed. */
  lemma {:induction false} GoldPerPeriod(x: nat, n: nat, period: nat)
    requires period == MODULUS
    ensures GoldCount(x, n + period) == GoldCount(x, n) + 10737420
  {
    var y := Iterate(x, n);
    var perCycle := GoldCount(y, period);
    assert perCycle == 10737420 by {
      GoldInOnePeriod(y, period);
      CycleShare(period);
    }
    assert GoldCount(x, n + period) == GoldCount(x, n) + perCycle by {
      GoldCountSplits(x, n, period);
    }
  }

  /** The projection of any iteration count, from the counts below one period. */
  lemma {:induction false} GoldAfterPeriods(x: nat, n: nat, periods: nat)
    ensures GoldCount(x, n + MODULUS * periods) == GoldCount(x, n) + 10737420 * periods
  {
    if periods > 0 {
      GoldAfterPeriods(x, n, periods - 1);
      GoldPerPeriod(x, n + MODULUS * (periods - 1), MODULUS);
    }
  }
}
