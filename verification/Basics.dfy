/** Facts about numbers and sequences that several components need. */
module Basics {

  // ---------------------------------------------------------------------
  // Products and quotients
  // ---------------------------------------------------------------------

  lemma MulMono(a: nat, b: nat, d: nat)
    requires a <= b
    ensures a * d <= b * d && d * a <= d * b
  {
  }

  lemma MulStep(q: int, k: int, m: int)
    requires m >= 0 && q < k
    ensures q * m + m <= k * m
  {
    var d := k - q - 1;
    assert k * m == q * m + m + d * m;
  }

  /** Quotient and remainder are the only numbers of their kind. */
  lemma ModUnique(x: int, m: int, q: int, r: int)
    requires m > 0 && 0 <= r < m && x == q * m + r
    ensures x % m == r && x / m == q
  {
    var k := x / m;
    assert x == k * m + x % m;
    if q < k {
      MulStep(q, k, m);
    } else if k < q {
      MulStep(k, q, m);
    }
  }

  // ---------------------------------------------------------------------
  // Sequences
  // ---------------------------------------------------------------------

  lemma Assoc<T>(a: seq<T>, b: seq<T>, c: seq<T>)
    ensures (a + b) + c == a + (b + c)
  {
  }

  /** A sequence without the element at a place. */
  function Without<T>(s: seq<T>, k: nat): seq<T>
    requires k < |s|
  {
    s[..k] + s[k + 1..]
  }

  // ---------------------------------------------------------------------
  // Sums
  // ---------------------------------------------------------------------

  function Sum(s: seq<int>): int {
    if s == [] then 0 else s[0] + Sum(s[1..])
  }

  lemma {:induction false} SumAppend(a: seq<int>, b: seq<int>)
    ensures Sum(a + b) == Sum(a) + Sum(b)
  {
    if a == [] {
      assert a + b == b;
    } else {
      SumAppend(a[1..], b);
      assert (a + b)[1..] == a[1..] + b;
    }
  }

  lemma SumOne(v: int)
    ensures Sum([v]) == v
  {
    assert [v][1..] == [];
  }

  lemma SumUpdate(s: seq<int>, k: nat, v: int)
    requires k < |s|
    ensures Sum(s[k := v]) == Sum(s) - s[k] + v
  {
    hide Sum;
    assert s == s[..k] + [s[k]] + s[k + 1..];
    assert s[k := v] == s[..k] + [v] + s[k + 1..];
    SumAppend(s[..k] + [s[k]], s[k + 1..]);
    SumAppend(s[..k] + [v], s[k + 1..]);
    SumAppend(s[..k], [s[k]]);
    SumAppend(s[..k], [v]);
    SumOne(s[k]);
    SumOne(v);
  }

  lemma SumWithout(s: seq<int>, k: nat)
    requires k < |s|
    ensures Sum(Without(s, k)) == Sum(s) - s[k]
  {
    hide Sum;
    assert s == s[..k] + [s[k]] + s[k + 1..];
    SumAppend(s[..k] + [s[k]], s[k + 1..]);
    SumAppend(s[..k], [s[k]]);
    SumAppend(s[..k], s[k + 1..]);
    SumOne(s[k]);
  }
}
