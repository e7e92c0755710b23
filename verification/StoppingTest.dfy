/** The test with which generateDamageList decides whether another tick of the same size follows: it divides in
    single precision and compares in double precision. */
module StoppingTest {
  import opened FloatingPoint

  function Abs(v: int): (r: nat) {
    if v < 0 then -v else v
  }

  function AbsReal(v: real): real {
    if v < 0.0 then -v else v
  }

  // ---------------------------------------------------------------------
  // The stopping test
  // ---------------------------------------------------------------------

  function Single(x: real): (r: real)
    requires x > 0.0
    ensures r > 0.0
  {
    Round(x, SINGLE)
  }

  /** The distance of a quotient from one, taken in double precision. */
  function Distance(q: real): real
    requires q > 0.0
  {
    if q == 1.0 then 0.0 else Round(AbsReal(1.0 - q), DOUBLE)
  }

  /** A whole number by a whole number, both in single precision already. */
  function Ratio(a: real, b: real): (r: real)
    requires a > 0.0 && b > 0.0
    ensures r > 0.0
  {
    Positive(a, b);
    Single(a / b)
  }

  lemma Positive(a: real, b: real)
    requires a > 0.0 && b > 0.0
    ensures a / b > 0.0
  {
    var q := a / b;
    assert q * b == a;
    if q <= 0.0 { Scaled(q, 0.0, b); }
  }

  /** One more tick of i brings the sum closer to med. Sum and share are rounded to single precision before
      they are divided; both quotients are infinite when med is zero. */
  predicate CloserWithOneMore(sum: nat, i: nat, med: nat) {
    sum > 0 && i > 0 && med > 0 &&
    var s, m := Single(sum as real), Single(med as real);
    Distance(Ratio(Single(s + Single(i as real)), m)) < Distance(Ratio(s, m))
  }

  lemma DistanceGrows(q: real, r: real)
    requires 1.0 <= q <= r
    ensures Distance(q) <= Distance(r)
  {
    hide Round;
    if 1.0 < q { RoundMono(q - 1.0, r - 1.0, DOUBLE); }
  }

  lemma RatioMono(a: real, b: real, m: real)
    requires 0.0 < a <= b && m > 0.0
    ensures Ratio(a, m) <= Ratio(b, m)
  {
    hide Round;
    Positive(a, m);
    var p, q := a / m, b / m;
    assert p * m == a && q * m == b;
    if p > q { Strictly(q, p, m); }
    RoundMono(p, q, SINGLE);
  }

  lemma Strictly(a: real, b: real, m: real)
    requires a < b && m > 0.0
    ensures a * m < b * m
  {
  }

  lemma RatioOfSame(m: real)
    requires m > 0.0
    ensures Ratio(m, m) == 1.0
  {
    assert m / m == 1.0;
    RoundWhole(1, SINGLE);
  }

  /** The loop never goes on once the share is reached, however coarse the numbers have become. */
  lemma StopsAtShare(sum: nat, i: nat, med: nat)
    ensures CloserWithOneMore(sum, i, med) ==> sum < med
  {
    if sum >= med > 0 && i > 0 {
      hide Round, Ratio, Distance;
      var s, m := Single(sum as real), Single(med as real);
      var t := Single(s + Single(i as real));
      RoundMono(med as real, sum as real, SINGLE);
      RoundMono(s, s + Single(i as real), SINGLE);
      RoundAgain(sum as real, SINGLE);
      RatioOfSame(m);
      RatioMono(m, s, m);
      RatioMono(s, t, m);
      DistanceGrows(Ratio(s, m), Ratio(t, m));
    }
  }

  // ---------------------------------------------------------------------
  // Exactness
  // ---------------------------------------------------------------------
  const GRID: real := 281474976710656.0

  /** A quotient of at least 2^-24 is a multiple of 2^-48. */
  lemma OnGrid(x: real) returns (k: int)
    requires 16777216.0 * x >= 1.0
    ensures GRID * Single(x) == k as real
  {
    hide Round;
    RoundScaled(x, SINGLE);
    k := RoundIsWhole(GRID * x, SINGLE);
  }

  lemma DistanceExact(q: real, k: int)
    requires GRID * q == k as real && 0.0 < q <= 2.0
    ensures Distance(q) == AbsReal(1.0 - q)
  {
    hide Round;
    var d := AbsReal(1.0 - q);
    if q != 1.0 {
      var n: nat := Abs(0x1_0000_0000_0000 - k);
      assert GRID * d == n as real;
      RoundWhole(n, DOUBLE);
      RoundScaled(d, DOUBLE);
    }
  }

  lemma SingleWhole(n: nat)
    requires 0 < n <= 0x100_0000
    ensures Single(n as real) == n as real
  {
    RoundWhole(n, SINGLE);
  }

  /** With numbers of at most 24 bits only the division rounds. */
  lemma SmallTest(sum: nat, i: nat, med: nat)
    requires 0 < sum && 0 < i && 0 < med <= 0x100_0000 && sum + i <= 0x100_0000
    ensures CloserWithOneMore(sum, i, med) <==>
              Distance(Ratio((sum + i) as real, med as real)) < Distance(Ratio(sum as real, med as real))
  {
    hide Round, Ratio, Distance;
    SingleWhole(sum);
    SingleWhole(i);
    SingleWhole(sum + i);
    SingleWhole(med);
  }

  /** a / m in real numbers, in units of 2^-24. */
  function Units(a: nat, m: nat): (x: real)
    requires a > 0 && m > 0
    ensures x * m as real == 16777216.0 * a as real && x > 0.0
  {
    var q := a as real / m as real;
    assert q * m as real == a as real;
    Positive(a as real, m as real);
    16777216.0 * q
  }

  /** The rounded quotient in units of 2^-24. */
  function Rounded(a: nat, m: nat): (x: real)
    requires a > 0 && m > 0
    ensures x > 0.0
  {
    16777216.0 * Ratio(a as real, m as real)
  }

  lemma RoundedIs(a: nat, m: nat)
    requires a > 0 && m > 0
    ensures Rounded(a, m) == Round(Units(a, m), SINGLE)
  {
    hide Round;
    Positive(a as real, m as real);
    RoundScaled(a as real / m as real, SINGLE);
  }

  /** A quotient of at most two by a divisor of at most 2^24. */
  lemma Quotient(a: nat, m: nat) returns (x: real)
    requires 0 < a <= 2 * m && 0 < m <= 0x100_0000
    ensures x == a as real / m as real && 0.0 < x <= 2.0 && 16777216.0 * x >= 1.0
  {
    x := a as real / m as real;
    Positive(a as real, m as real);
    assert x * m as real == a as real;
    Within(x, a, m);
  }

  lemma Within(x: real, a: nat, m: nat)
    requires 0 < a <= 2 * m && 0 < m <= 0x100_0000 && x * m as real == a as real
    ensures x <= 2.0 && 16777216.0 * x >= 1.0
  {
    assert a as real >= 1.0;
    assert a as real <= 2.0 * m as real;
    AtMostTwo(x, a as real, m as real);
    NotTiny(x, a as real, m as real);
  }

  lemma AtMostTwo(x: real, a: real, n: real)
    requires x * n == a <= 2.0 * n && n > 0.0
    ensures x <= 2.0
  {
    Compare(2.0, x, n);
  }

  lemma NotTiny(x: real, a: real, n: real)
    requires x * n == a && 1.0 <= a && 0.0 < n <= 16777216.0
    ensures 16777216.0 * x >= 1.0
  {
    assert 16777216.0 * x * n == 16777216.0 * a;
    if 16777216.0 * x < 1.0 { Strictly(16777216.0 * x, 1.0, n); }
  }

  /** Quotients of numbers up to 2^24 keep their distance from one in double precision. */
  lemma DistanceOfRatio(a: nat, m: nat)
    requires 0 < a <= 2 * m && 0 < m <= 0x100_0000
    ensures Rounded(a, m) <= 33554432.0
    ensures 16777216.0 * Distance(Ratio(a as real, m as real)) == AbsReal(16777216.0 - Rounded(a, m))
  {
    hide Round, Distance;
    var x := Quotient(a, m);
    RoundMono(x, 2.0, SINGLE);
    RoundWhole(2, SINGLE);
    var k := OnGrid(x);
    DistanceExact(Ratio(a as real, m as real), k);
  }

  lemma UnitsBelow(a: nat, m: nat)
    requires 0 < a && 0 < m
    ensures a < m <==> Units(a, m) < 16777216.0
    ensures a < 2 * m <==> Units(a, m) < 33554432.0
  {
    UnitsBelowMultiple(a, m, 1);
    UnitsBelowMultiple(a, m, 2);
  }

  lemma UnitsBelowMultiple(a: nat, m: nat, k: nat)
    requires 0 < a && 0 < m
    ensures a < k * m <==> Units(a, m) < 16777216.0 * k as real
  {
    hide Units;
    var x, n, c := Units(a, m), m as real, k as real;
    assert x * n == 16777216.0 * a as real;
    Compare(x, 16777216.0 * c, n);
    assert (k * m) as real == c * n;
    assert 16777216.0 * c * n == 16777216.0 * (k * m) as real;
  }

  lemma Compare(a: real, b: real, m: real)
    requires m > 0.0
    ensures a < b <==> a * m < b * m
  {
    if a < b { Strictly(a, b, m); } else { Scaled(b, a, m); }
  }

  /** The error of a quotient, in units of 2^-24. */
  lemma UnitsError(a: nat, m: nat)
    requires 0 < a < 2 * m
    ensures a < m ==> -0.5 <= Rounded(a, m) - Units(a, m) <= 0.5
    ensures -1.0 <= Rounded(a, m) - Units(a, m) <= 1.0
  {
    hide Round, Units, Rounded;
    var x := Units(a, m);
    RoundedIs(a, m);
    UnitsBelow(a, m);
    RoundDouble(x / 2.0, SINGLE);
    RoundError(x / 2.0, SINGLE);
    if a < m { RoundError(x, SINGLE); }
  }

  lemma UnitsApart(a: nat, b: nat, m: nat)
    requires 0 < a < b && 0 < m < 0x100_0000
    ensures Units(b, m) - Units(a, m) > 1.0
  {
    var d := Units(b, m) - Units(a, m);
    assert d * m as real == 16777216.0 * (b - a) as real;
    if d <= 1.0 { Scaled(d, 1.0, m as real); }
  }

  /** Up to 2^24 two quotients by the same number differ after rounding, too. */
  lemma RoundedApart(a: nat, b: nat, m: nat)
    requires 0 < a < b <= m <= 0x100_0000
    ensures Rounded(a, m) < Rounded(b, m) <= 16777216.0
  {
    hide Round, Ratio, Units;
    if m == 0x100_0000 {
      WholeUnits(a);
      WholeUnits(b);
    } else {
      UnitsApart(a, b, m);
      UnitsError(a, m);
      if b < m { UnitsError(b, m); }
    }
    SameUnits(m);
    RatioOfSame(m as real);
    RatioMono(b as real, m as real, m as real);
  }

  lemma SameUnits(m: nat)
    requires m > 0
    ensures Units(m, m) == 16777216.0
  {
    Compare(Units(m, m), 16777216.0, m as real);
    Compare(16777216.0, Units(m, m), m as real);
  }

  lemma WholeUnits(a: nat)
    requires 0 < a <= 0x100_0000
    ensures Rounded(a, 0x100_0000) == a as real
  {
    RoundedIs(a, 0x100_0000);
    assert Units(a, 0x100_0000) == a as real;
    RoundWhole(a, SINGLE);
  }

  /** Ticks of one go on until the share is reached, for shares up to 2^24. */
  lemma GoesOnBelowShare(sum: nat, i: nat, med: nat)
    requires 0 < i && 0 < sum && sum + i <= med <= 0x100_0000
    ensures CloserWithOneMore(sum, i, med)
  {
    hide Round, Ratio, Distance;
    SmallTest(sum, i, med);
    RoundedApart(sum, sum + i, med);
    DistanceOfRatio(sum, med);
    DistanceOfRatio(sum + i, med);
  }

  /** For shares below a third of 2^25 the test is the integer comparison of the midpoint, except where
      both distances are equal in real numbers. */
  lemma MidpointTest(sum: nat, i: nat, med: nat)
    requires 0 < i <= 0x40_0000 && 0 < sum && 3 * med < 0x200_0000
    requires 2 * sum + i != 2 * med
    ensures CloserWithOneMore(sum, i, med) <==> 2 * sum + i < 2 * med
  {
    hide Round, Ratio, Distance, CloserWithOneMore;
    if sum >= med {
      StopsAtShare(sum, i, med);
    } else if sum + i <= med {
      GoesOnBelowShare(sum, i, med);
    } else {
      SmallTest(sum, i, med);
      AcrossShare(sum, sum + i, med);
    }
  }

  /** A tick that oversteps the share. */
  lemma AcrossShare(a: nat, b: nat, m: nat)
    requires 0 < a < m < b && 3 * m < 0x200_0000 && a + b != 2 * m
    ensures Distance(Ratio(b as real, m as real)) < Distance(Ratio(a as real, m as real)) <==> a + b < 2 * m
  {
    hide Round, Ratio, Distance, Units;
    DistanceOfRatio(a, m);
    UnitsError(a, m);
    if b < 2 * m {
      DistanceOfRatio(b, m);
      UnitsError(b, m);
      RatioOfSame(m as real);
      RatioMono(m as real, b as real, m as real);
      RatioMono(a as real, m as real, m as real);
      Margin(a, b, m);
    } else {
      DistanceOfRatio(2 * m, m);
      RatioMono((2 * m) as real, b as real, m as real);
      TwiceIsTwo(m);
      DistanceGrows(Ratio((2 * m) as real, m as real), Ratio(b as real, m as real));
    }
  }

  /** Off the tie the sum of two quotients misses two by more than both errors. */
  lemma Margin(a: nat, b: nat, m: nat)
    requires 0 < a && 0 < b && 0 < m && 3 * m < 0x200_0000
    ensures a + b < 2 * m ==> Units(a, m) + Units(b, m) < 33554432.0 - 1.5
    ensures a + b > 2 * m ==> Units(a, m) + Units(b, m) > 33554432.0 + 1.5
  {
    hide Units;
    var e, r := Units(a, m) + Units(b, m) - 33554432.0, m as real;
    var k := a + b - 2 * m;
    assert k as real == a as real + b as real - 2.0 * r;
    assert e * r == Units(a, m) * r + Units(b, m) * r - 33554432.0 * r;
    assert e * r == 16777216.0 * k as real;
    assert r * 1.5 < 16777216.0 by { assert 3.0 * r == (3 * m) as real; }
    Compare(e, -1.5, r);
    Compare(1.5, e, r);
  }

  lemma TwiceIsTwo(m: nat)
    requires m > 0
    ensures Ratio((2 * m) as real, m as real) == 2.0
  {
    assert (2 * m) as real / m as real == 2.0;
    RoundWhole(2, SINGLE);
  }

  /** On the tie itself the rounding decides: with 5 dealt of 6 another tick of 2 follows, with 1 of 2 it does not. */
  lemma TiesGoEitherWay()
    ensures CloserWithOneMore(5, 2, 6) && !CloserWithOneMore(1, 2, 2)
  {
    hide Distance;
    SmallTest(5, 2, 6);
    DistanceOfRatio(5, 6);
    DistanceOfRatio(7, 6);
    RoundedIs(5, 6);
    RoundedIs(7, 6);
    assert Units(5, 6) == 13981013.0 + 1.0 / 3.0;
    assert Units(7, 6) / 2.0 == 9786709.0 + 1.0 / 3.0;
    assert NearestInt(13981013.0 + 1.0 / 3.0) == 13981013;
    assert NearestInt(9786709.0 + 1.0 / 3.0) == 9786709;
    SmallTest(1, 2, 2);
    DistanceOfRatio(1, 2);
    DistanceOfRatio(3, 2);
    RoundedIs(1, 2);
    RoundedIs(3, 2);
    assert Units(1, 2) == 8388608.0;
    assert Units(3, 2) / 2.0 == 12582912.0;
  }

  lemma DoubleEndsInZero(s: nat)
    requires EndsInZero(s, SINGLE)
    ensures EndsInZero(2 * s, SINGLE)
  {
    assert 2 * s / 2 == s;
  }

  lemma MultipleEndsInZero(j: nat)
    requires j < SINGLE
    ensures EndsInZero(256 * j, SINGLE)
  {
    assert EndsInZero(2 * j, SINGLE);
    hide EndsInZero;
    DoubleEndsInZero(2 * j);
    DoubleEndsInZero(4 * j);
    DoubleEndsInZero(8 * j);
    DoubleEndsInZero(16 * j);
    DoubleEndsInZero(32 * j);
    DoubleEndsInZero(64 * j);
    DoubleEndsInZero(128 * j);
  }

  /** From 2^24 on a multiple of 256 takes no more ticks of one: in single precision the next number is the same. */
  lemma StuckAtMultiple(sum: nat, med: nat)
    requires 0x100_0000 <= sum < 0x8000_0000 && sum % 256 == 0
    ensures !CloserWithOneMore(sum, 1, med)
  {
    hide Round, Ratio, Distance;
    SingleWhole(1);
    MultipleEndsInZero(sum / 256);
    Absorbed(sum, 0.0, SINGLE);
    Absorbed(sum, 1.0, SINGLE);
  }
}
