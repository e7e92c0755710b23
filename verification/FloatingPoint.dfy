/** Binary floating point: a positive number is rounded to the nearest one whose significand fits, ties to even.
    The exponent is unbounded; nothing here comes near its ends. */
module FloatingPoint {

  /** The least significand of binary32 and of binary64 (section 3.6 of IEEE 754): the significand of a rounded
      number lies from there up to its double. */
  const SINGLE: nat := 0x80_0000
  const DOUBLE: nat := 0x10_0000_0000_0000

  function NearestInt(x: real): (n: int)
    ensures -0.5 <= n as real - x <= 0.5
  {
    var below := x.Floor;
    var rest := x - below as real;
    if rest < 0.5 || (rest == 0.5 && below % 2 == 0) then below else below + 1
  }

  /** How often x has to be halved or doubled to become a significand, or more. */
  ghost function Steps(x: real, lo: nat): nat
    requires x > 0.0 && lo > 0
  {
    if x >= 2.0 * lo as real then x.Floor
    else if x < lo as real then (Times(x, lo); (lo as real / x).Floor)
    else 0
  }

  lemma Times(x: real, lo: nat)
    requires 0.0 < x < lo as real
    ensures lo as real / x > 1.0
  {
    var q := lo as real / x;
    assert q * x == lo as real;
    if q <= 1.0 { Scaled(q, 1.0, x); }
  }

  lemma Scaled(a: real, b: real, m: real)
    requires a <= b && m > 0.0
    ensures a * m <= b * m
  {
  }

  lemma DoubleSteps(x: real, lo: nat)
    requires 0.0 < x < lo as real
    ensures Steps(2.0 * x, lo) < Steps(x, lo)
  {
    Times(x, lo);
    var q := lo as real / x;
    if 2.0 * x < lo as real {
      Times(2.0 * x, lo);
      var h := lo as real / (2.0 * x);
      assert h * (2.0 * x) == lo as real == q * x;
      assert (2.0 * h - q) * x == 0.0;
      assert 2.0 * h == q;
    }
  }

  lemma HalfSteps(x: real, lo: nat)
    requires lo > 0 && x >= 2.0 * lo as real
    ensures Steps(x / 2.0, lo) < Steps(x, lo)
  {
  }

  /** x with a significand from lo to its double. */
  function Round(x: real, lo: nat): (r: real)
    requires x > 0.0 && lo > 0
    ensures r > 0.0
    decreases Steps(x, lo)
  {
    if x >= 2.0 * lo as real then
      HalfSteps(x, lo);
      2.0 * Round(x / 2.0, lo)
    else if x < lo as real then
      DoubleSteps(x, lo);
      Round(2.0 * x, lo) / 2.0
    else
      NearestInt(x) as real
  }

  /** Rounding does not see the scale. */
  lemma RoundDouble(x: real, lo: nat)
    requires x > 0.0 && lo > 0
    ensures Round(2.0 * x, lo) == 2.0 * Round(x, lo)
  {
    if x >= lo as real { assert (2.0 * x) / 2.0 == x; }
  }

  lemma Round256(x: real, lo: nat)
    requires x > 0.0 && lo > 0
    ensures Round(256.0 * x, lo) == 256.0 * Round(x, lo)
  {
    hide Round;
    RoundDouble(x, lo);
    RoundDouble(2.0 * x, lo);
    RoundDouble(4.0 * x, lo);
    RoundDouble(8.0 * x, lo);
    RoundDouble(16.0 * x, lo);
    RoundDouble(32.0 * x, lo);
    RoundDouble(64.0 * x, lo);
    RoundDouble(128.0 * x, lo);
  }

  lemma RoundScaled(x: real, lo: nat)
    requires x > 0.0 && lo > 0
    ensures Round(16777216.0 * x, lo) == 16777216.0 * Round(x, lo)
    ensures Round(281474976710656.0 * x, lo) == 281474976710656.0 * Round(x, lo)
  {
    hide Round;
    Round256(x, lo);
    Round256(256.0 * x, lo);
    Round256(65536.0 * x, lo);
    Round256(16777216.0 * x, lo);
    Round256(4294967296.0 * x, lo);
    Round256(1099511627776.0 * x, lo);
  }

  // ---------------------------------------------------------------------
  // How far, and what is exact
  // ---------------------------------------------------------------------

  /** Below twice the least significand the error is at most one half. */
  lemma {:induction false} RoundError(x: real, lo: nat)
    requires lo > 0 && 0.0 < x < 2.0 * lo as real
    ensures -0.5 <= Round(x, lo) - x <= 0.5
    decreases Steps(x, lo)
  {
    if x < lo as real {
      DoubleSteps(x, lo);
      RoundError(2.0 * x, lo);
    }
  }

  /** A whole number of at most twice the least significand is exact. */
  lemma {:induction false} RoundWhole(n: nat, lo: nat)
    requires 0 < n <= 2 * lo
    ensures Round(n as real, lo) == n as real
    decreases Steps(n as real, lo)
  {
    var x := n as real;
    if n == 2 * lo {
      assert x / 2.0 == lo as real;
      assert Round(lo as real, lo) == lo as real;
    } else if n < lo {
      DoubleSteps(x, lo);
      assert (2 * n) as real == 2.0 * x;
      RoundWhole(2 * n, lo);
    }
  }

  /** A result from the least significand on is a whole number. */
  lemma {:induction false} RoundIsWhole(x: real, lo: nat) returns (n: int)
    requires lo > 0 && x >= lo as real
    ensures Round(x, lo) == n as real
    decreases Steps(x, lo)
  {
    if x >= 2.0 * lo as real {
      HalfSteps(x, lo);
      var half := RoundIsWhole(x / 2.0, lo);
      n := 2 * half;
    } else {
      n := NearestInt(x);
    }
  }

  lemma {:induction false} RoundAgain(x: real, lo: nat)
    requires x > 0.0 && lo > 0
    ensures Round(Round(x, lo), lo) == Round(x, lo)
    decreases Steps(x, lo)
  {
    if x >= 2.0 * lo as real {
      HalfSteps(x, lo);
      RoundAgain(x / 2.0, lo);
      RoundDouble(Round(x / 2.0, lo), lo);
    } else if x < lo as real {
      DoubleSteps(x, lo);
      RoundAgain(2.0 * x, lo);
      RoundDouble(Round(x, lo), lo);
    } else {
      RoundWhole(NearestInt(x), lo);
    }
  }

  // ---------------------------------------------------------------------
  // Order
  // ---------------------------------------------------------------------

  lemma NearestMono(x: real, y: real)
    requires x <= y
    ensures NearestInt(x) <= NearestInt(y)
  {
  }

  lemma NearestWithin(x: real, lo: nat)
    requires lo as real <= x <= 2.0 * lo as real
    ensures lo <= NearestInt(x) <= 2 * lo
  {
    NearestMono(lo as real, x);
    NearestMono(x, (2 * lo) as real);
  }

  /** Rounding does not cross the least significand, nor its double. */
  lemma {:induction false} RoundHigh(x: real, lo: nat)
    requires lo > 0 && x >= lo as real
    ensures Round(x, lo) >= (if x >= 2.0 * lo as real then 2.0 * lo as real else lo as real)
    decreases Steps(x, lo)
  {
    if x >= 2.0 * lo as real {
      HalfSteps(x, lo);
      RoundHigh(x / 2.0, lo);
    } else {
      NearestWithin(x, lo);
    }
  }

  lemma {:induction false} RoundLow(x: real, lo: nat)
    requires lo > 0 && 0.0 < x < 2.0 * lo as real
    ensures Round(x, lo) <= (if x < lo as real then lo as real else 2.0 * lo as real)
    decreases Steps(x, lo)
  {
    if x < lo as real {
      DoubleSteps(x, lo);
      RoundLow(2.0 * x, lo);
    } else {
      NearestWithin(x, lo);
    }
  }

  lemma {:induction false} RoundMono(x: real, y: real, lo: nat)
    requires 0.0 < x <= y && lo > 0
    ensures Round(x, lo) <= Round(y, lo)
    decreases Steps(x, lo) + Steps(y, lo)
  {
    if y >= lo as real { RoundHigh(y, lo); }
    if x < 2.0 * lo as real { RoundLow(x, lo); }
    if x >= 2.0 * lo as real {
      HalfSteps(x, lo);
      HalfSteps(y, lo);
      RoundMono(x / 2.0, y / 2.0, lo);
    } else if y < lo as real {
      DoubleSteps(x, lo);
      DoubleSteps(y, lo);
      RoundMono(2.0 * x, 2.0 * y, lo);
    } else if lo as real <= x && y < 2.0 * lo as real {
      NearestMono(x, y);
    }
  }

  // ---------------------------------------------------------------------
  // Absorption
  // ---------------------------------------------------------------------

  /** Halved down to a significand the number is even. */
  ghost predicate EndsInZero(s: nat, lo: nat)
    requires lo > 0
  {
    s % 2 == 0 && (s >= 2 * lo ==> EndsInZero(s / 2, lo))
  }

  /** A large number whose significand ends in a zero swallows what is at most half of its last place. */
  lemma {:induction false} Absorbed(s: nat, d: real, lo: nat)
    requires 0 < lo <= s && EndsInZero(s, lo) && 0.0 <= d
    requires if s < 2 * lo then d <= 0.5 else d <= 1.0
    ensures Round(s as real + d, lo) == s as real
    decreases s
  {
    hide Steps;
    var x := s as real + d;
    if s < 2 * lo {
      assert NearestInt(x) == s;
    } else {
      var h := s / 2;
      assert s == 2 * h;
      assert x / 2.0 == h as real + d / 2.0;
      Absorbed(h, d / 2.0, lo);
    }
  }

  // ---------------------------------------------------------------------
  // Rounded-up quotients
  // ---------------------------------------------------------------------

  function Ceiling(x: real): int {
    if x == x.Floor as real then x.Floor else x.Floor + 1
  }

  function Pow2(n: nat): (p: nat)
    ensures p > 0
  {
    if n == 0 then 1 else 2 * Pow2(n - 1)
  }

  /** x doubled n times. */
  function Scale(x: real, n: nat): real {
    if n == 0 then x else 2.0 * Scale(x, n - 1)
  }

  lemma {:induction false} RoundScale(x: real, n: nat, lo: nat)
    requires x > 0.0 && lo > 0
    ensures Scale(x, n) > 0.0 && Round(Scale(x, n), lo) == Scale(Round(x, lo), n)
  {
    hide Round;
    if n > 0 {
      RoundScale(x, n - 1, lo);
      RoundDouble(Scale(x, n - 1), lo);
    }
  }

  lemma {:induction false} ScaleIsProduct(x: real, n: nat)
    ensures Scale(x, n) == Pow2(n) as real * x
  {
    if n > 0 {
      ScaleIsProduct(x, n - 1);
      Doubled(Pow2(n) as real, Pow2(n - 1) as real, x);
    }
  }

  lemma Doubled(p: real, q: real, x: real)
    requires p == 2.0 * q
    ensures p * x == 2.0 * (q * x)
  {
  }

  lemma {:induction false} ScaleOnce(x: real, y: real, n: nat)
    requires Scale(x, n) == Scale(y, n)
    ensures x == y
  {
    if n > 0 { ScaleOnce(x, y, n - 1); }
  }

  /** A power of two from b up to twice b. */
  lemma {:induction false} PowerFrom(b: nat) returns (n: nat)
    requires b > 0
    ensures b <= Pow2(n) < 2 * b
    decreases b
  {
    if b == 1 {
      n := 0;
    } else {
      var h := PowerFrom((b + 1) / 2);
      n := h + 1;
      if Pow2(n) >= 2 * b {
        n := h;
      }
    }
  }

  /** A multiple of a power of one half is exact when it has few enough bits. */
  lemma MultipleIsExact(z: real, n: nat, w: nat)
    requires z > 0.0 && Scale(z, n) == w as real && 0 < w <= 2 * DOUBLE
    ensures Round(z, DOUBLE) == z
  {
    hide Round, Scale;
    RoundScale(z, n, DOUBLE);
    RoundWhole(w, DOUBLE);
    ScaleOnce(Round(z, DOUBLE), z, n);
  }

  /** Just above a whole number lies one that double precision still has. */
  lemma JustAbove(j: nat, n: nat)
    requires j * Pow2(n) < 2 * DOUBLE
    ensures Round(NextTo(j, n), DOUBLE) == NextTo(j, n)
  {
    hide Round, Pow2;
    var p := Pow2(n);
    var u := 1.0 / p as real;
    assert u * p as real == 1.0;
    assert p as real * (j as real + u) == p as real * j as real + 1.0;
    assert p as real * j as real == (j * p) as real;
    ScaleIsProduct(NextTo(j, n), n);
    MultipleIsExact(NextTo(j, n), n, j * p + 1);
  }

  function NextTo(j: nat, n: nat): (z: real)
    ensures z > j as real
  {
    var u := 1.0 / Pow2(n) as real;
    assert u * Pow2(n) as real == 1.0;
    NotBelowZero(u, Pow2(n) as real);
    j as real + u
  }

  lemma NotBelowZero(u: real, p: real)
    requires p > 0.0 && u * p > 0.0
    ensures u > 0.0
  {
    if u <= 0.0 { Scaled(u, 0.0, p); }
  }

  lemma Bracket(x: real, a: nat, b: nat, k: int)
    requires a > 0 && b > 0 && x * b as real == a as real && a <= k * b
    ensures 0.0 < x <= k as real && k > 0
  {
    if x <= 0.0 { Scaled(x, 0.0, b as real); }
    assert (k * b) as real == k as real * b as real;
    NotAbove(x, k as real, b as real);
  }

  lemma NotAbove(x: real, y: real, p: real)
    requires p > 0.0 && x * p <= y * p
    ensures x <= y
  {
    if x > y { Above(y, x, p); }
  }

  lemma Above(a: real, b: real, p: real)
    requires a < b && p > 0.0
    ensures a * p < b * p
  {
  }

  lemma ProductFits(j: nat, b: nat, p: nat, a: nat)
    requires j * b < a && p < 2 * b
    ensures j * p <= 2 * a
  {
    assert j * p <= j * (2 * b) == 2 * (j * b);
  }

  lemma Beyond(x: real, a: nat, b: nat, j: nat, p: nat)
    requires b > 0 && x * b as real == a as real && j * b < a && b <= p
    ensures j as real + 1.0 / p as real <= x
  {
    var u, c := 1.0 / p as real, b as real;
    assert u * p as real == 1.0;
    if u <= 0.0 { Scaled(u, 0.0, p as real); }
    assert u * c <= 1.0 by { assert u * c <= u * p as real; }
    assert (j * b) as real == j as real * c;
    assert (j as real + u) * c == j as real * c + u * c;
    assert j as real * c + 1.0 <= a as real by { assert j * b + 1 <= a; }
    NotAbove(j as real + u, x, c);
  }

  /** A quotient of 32-bit numbers in double precision rounds up to the exact quotient rounded up. */
  lemma CeilingIsExact(a: nat, b: nat)
    requires 0 < a < 0x1_0000_0000 && 0 < b
    ensures a as real / b as real > 0.0
    ensures Ceiling(Round(a as real / b as real, DOUBLE)) == (a + b - 1) / b
  {
    hide Round;
    var x := a as real / b as real;
    assert x * b as real == a as real;
    var k := (a + b - 1) / b;
    assert k * b <= a + b - 1 < k * b + b;
    Bracket(x, a, b, k);
    RoundMono(x, k as real, DOUBLE);
    RoundWhole(k, DOUBLE);
    if k > 1 {
      var j := k - 1;
      var n := PowerFrom(b);
      ProductFits(j, b, Pow2(n), a);
      JustAbove(j, n);
      Beyond(x, a, b, j, Pow2(n));
      RoundMono(NextTo(j, n), x, DOUBLE);
    }
  }
}
