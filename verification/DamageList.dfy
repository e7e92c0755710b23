/** Damage over time: how an amount of damage is cut into ticks. */
module DamageList {

  import opened Basics
  import opened StoppingTest

  const THINK_INTERVAL := 250

  function Max(a: int, b: int): int {
    if a < b then b else a
  }

  // ---------------------------------------------------------------------
  // The list
  // ---------------------------------------------------------------------

  /** The share of the amount that should be dealt once the ticks down to i are out. */
  function Share(i: nat, start: nat, amount: nat): nat
    requires 1 <= i <= start
  {
    var dealt := (start + 1 - i) * amount;
    assert dealt >= 0;
    dealt / start
  }

  /** Whether another tick of the same size follows, by what is dealt, the size and the share. */
  type Test = (nat, nat, nat) -> bool

  /** No tick follows once the share is reached. */
  ghost predicate StopsInTime(more: Test) {
    forall sum: nat, i: nat, med: nat :: more(sum, i, med) ==> sum < med
  }

  /** Ticks of one follow until the share is reached, for shares up to a limit. */
  ghost predicate GoesOn(more: Test, limit: nat) {
    forall sum: nat, med: nat :: 0 < sum < med <= limit ==> more(sum, 1, med)
  }

  /** The ticks of i: at least one, and more while the test asks for it. */
  ghost function Repeat(more: Test, i: nat, med: nat, sum: nat): (r: seq<int>)
    requires i > 0 && StopsInTime(more)
    ensures r != [] && forall v <- r :: v == i
    decreases med - sum
  {
    [i] + if more(sum + i, i, med) then Repeat(more, i, med, sum + i) else []
  }

  /** The ticks of i end where the test says so, less than i beyond the share if there were several. */
  lemma {:induction false} RepeatSum(more: Test, i: nat, med: nat, sum: nat)
    requires i > 0 && StopsInTime(more)
    ensures var e := sum + Sum(Repeat(more, i, med, sum));
            && e >= sum + i && !more(e, i, med)
            && (e == sum + i || (sum + i < med && e < med + i && more(e - i, i, med)))
    decreases med - sum
  {
    var r := Repeat(more, i, med, sum);
    assert r[0] == i;
    if more(sum + i, i, med) {
      assert r[1..] == Repeat(more, i, med, sum + i);
      RepeatSum(more, i, med, sum + i);
    } else {
      assert r[1..] == [];
    }
  }

  /** Ticks from i down to 1, when sum has been dealt already. */
  ghost function Ticks(more: Test, i: nat, start: nat, amount: nat, sum: nat): seq<int>
    requires i <= start && StopsInTime(more)
  {
    if i == 0 then []
    else
      var r := Repeat(more, i, Share(i, start, amount), sum);
      RepeatSum(more, i, Share(i, start, amount), sum);
      r + Ticks(more, i - 1, start, amount, sum + Sum(r))
  }

  /** The whole list under a test. */
  ghost function TicksBy(more: Test, amount: int, start: int): seq<int>
    requires StopsInTime(more)
  {
    if start <= 0 then [] else Ticks(more, start, start, Abs(amount), 0)
  }

  // ---------------------------------------------------------------------
  // Its total
  // ---------------------------------------------------------------------

  /** The sum of i..start. */
  function Stairs(i: nat, start: nat): nat
    decreases start + 1 - i
  {
    if i > start then 0 else i + Stairs(i + 1, start)
  }

  lemma {:induction false} StairsClosed(i: nat, start: nat)
    requires 1 <= i <= start + 1
    ensures 2 * Stairs(i, start) == (start + 1 - i) * (start + i)
    decreases start + 1 - i
  {
    if i <= start { StairsClosed(i + 1, start); }
  }

  /** The state after the ticks of j. Without a repetition the sum is the bare staircase; from the first
      repetition on it stays less than one tick above its share. */
  predicate Tracks(j: nat, start: nat, amount: nat, sum: nat, repeated: bool)
    requires 1 <= j <= start
  {
    if repeated then Stairs(j, start) <= sum < Share(j, start, amount) + j && amount >= j * start
    else sum == Stairs(j, start)
  }

  /** Each step down adds at least i to the share when the amount is at least i * start. */
  lemma ShareGrows(i: nat, start: nat, amount: nat)
    requires 1 <= i < start && amount >= (i + 1) * start
    ensures Share(i, start, amount) >= Share(i + 1, start, amount) + i + 1
  {
    var x := (start - i) * amount;
    assert (start + 1 - i) * amount == x + amount;
    DivGrows(x, amount, i + 1, start);
  }

  lemma DivGrows(x: nat, y: nat, k: nat, d: nat)
    requires d > 0 && y >= k * d
    ensures (x + y) / d >= x / d + k
  {
    var q := x / d;
    assert q * d <= x;
    assert (q + k) * d == q * d + k * d;
    var r := (x + y) / d;
    if r < q + k {
      MulStep(r, q + k, d);
    }
  }

  /** A repetition means that the amount exceeds i * start. */
  lemma RepetitionIsLarge(i: nat, start: nat, amount: nat, sum: nat)
    requires 1 <= i <= start && sum >= Stairs(i + 1, start) && sum + i < Share(i, start, amount)
    ensures amount >= i * start
  {
    var n := start + 1 - i;
    StairsClosed(i, start);
    if amount < i * start {
      SmallAmount(n, i, start, amount, Share(i, start, amount));
    }
  }

  lemma SmallAmount(n: nat, i: nat, start: nat, amount: nat, med: nat)
    requires 1 <= i <= start && med == n * amount / start && amount <= i * start
    ensures 2 * med <= n * (start + i)
  {
    assert med * start <= n * amount;
    MulMono(amount, i * start, n);
    assert n * (i * start) == (n * i) * start;
    Cancel(start, med, n * i);
    MulMono(i, start, n);
    assert n * (start + i) == n * start + n * i;
  }

  lemma Cancel(n: nat, a: nat, b: nat)
    requires n > 0 && n * a <= n * b
    ensures a <= b
  {
    if a > b { MulStep(b, a, n); }
  }

  lemma LastShare(start: nat, amount: nat)
    requires start >= 1
    ensures Share(1, start, amount) == amount
  {
    ModUnique(start * amount, start, amount, 0);
  }

  /** One step down keeps the state tracked; `again` says whether i was repeated. */
  lemma TracksStep(more: Test, i: nat, start: nat, amount: nat, sum: nat, repeated: bool) returns (again: bool)
    requires 1 <= i <= start && StopsInTime(more)
    requires if i == start then sum == 0 && !repeated else Tracks(i + 1, start, amount, sum, repeated)
    ensures Sum(Repeat(more, i, Share(i, start, amount), sum)) >= i
    ensures Tracks(i, start, amount, sum + Sum(Repeat(more, i, Share(i, start, amount), sum)), again)
  {
    hide Repeat, Sum, Share;
    var med := Share(i, start, amount);
    RepeatSum(more, i, med, sum);
    var e := sum + Sum(Repeat(more, i, med, sum));
    again := repeated || e != sum + i;
    assert Stairs(i, start) == i + Stairs(i + 1, start);
    if repeated {
      ShareGrows(i, start, amount);
      LessHeld(i, start, amount);
    } else if e != sum + i {
      RepetitionIsLarge(i, start, amount, sum);
    }
  }

  lemma LessHeld(i: nat, start: nat, amount: nat)
    requires amount >= (i + 1) * start
    ensures amount >= i * start
  {
    MulMono(i, i + 1, start);
  }

  lemma {:induction false} TicksTotal(more: Test, i: nat, start: nat, amount: nat, sum: nat, repeated: bool)
    requires i <= start && start >= 1 && StopsInTime(more)
    requires if i == start then sum == 0 && !repeated
             else Tracks(i + 1, start, amount, sum, repeated) && !more(sum, i + 1, Share(i + 1, start, amount))
    ensures var total := sum + Sum(Ticks(more, i, start, amount, sum));
            Stairs(1, start) <= total <= Max(amount, Stairs(1, start)) && total > 0 && !more(total, 1, amount)
    decreases i
  {
    hide Repeat, Share, Tracks, Stairs;
    if i == 0 {
      FinalSum(start, amount, sum, repeated);
    } else {
      var med := Share(i, start, amount);
      var r := Repeat(more, i, med, sum);
      RepeatSum(more, i, med, sum);
      var again := TracksStep(more, i, start, amount, sum, repeated);
      TicksTotal(more, i - 1, start, amount, sum + Sum(r), again);
      SumAppend(r, Ticks(more, i - 1, start, amount, sum + Sum(r)));
    }
  }

  lemma FinalSum(start: nat, amount: nat, sum: nat, repeated: bool)
    requires start >= 1 && Tracks(1, start, amount, sum, repeated)
    ensures Stairs(1, start) <= sum <= Max(amount, Stairs(1, start)) && sum > 0
    ensures Share(1, start, amount) == amount
  {
    LastShare(start, amount);
    assert Stairs(1, start) >= 1;
  }

  /** Whatever the test makes of ties and roundings: if it never goes on once the share is reached, the ticks add
      up to at least the bare staircase and to no more than the larger of that and the amount, and to exactly
      that if ticks of one go on until the amount is reached. */
  lemma DamageTotal(more: Test, amount: int, start: int)
    requires start >= 1 && StopsInTime(more)
    ensures start * (start + 1) / 2 <= Sum(TicksBy(more, amount, start)) <= Max(Abs(amount), start * (start + 1) / 2)
    ensures GoesOn(more, Abs(amount)) ==>
              Sum(TicksBy(more, amount, start)) == Max(Abs(amount), start * (start + 1) / 2)
  {
    TicksTotal(more, start, start, Abs(amount), 0, false);
    StairsClosed(1, start);
  }

  predicate NonIncreasing(s: seq<int>) {
    forall j, k | 0 <= j < k < |s| :: s[j] >= s[k]
  }

  lemma {:induction false} TicksShape(more: Test, i: nat, start: nat, amount: nat, sum: nat)
    requires i <= start && StopsInTime(more)
    ensures NonIncreasing(Ticks(more, i, start, amount, sum))
    ensures forall v <- Ticks(more, i, start, amount, sum) :: 1 <= v <= i
    ensures forall v | 1 <= v <= i :: v in Ticks(more, i, start, amount, sum)
    decreases i
  {
    hide Repeat, Share, Sum;
    if i > 0 {
      var r := Repeat(more, i, Share(i, start, amount), sum);
      RepeatSum(more, i, Share(i, start, amount), sum);
      var rest := Ticks(more, i - 1, start, amount, sum + Sum(r));
      TicksShape(more, i - 1, start, amount, sum + Sum(r));
      assert r[0] in r;
      forall j, k | 0 <= j < k < |r + rest| ensures (r + rest)[j] >= (r + rest)[k] {
        if k >= |r| {
          assert (r + rest)[k] == rest[k - |r|] && rest[k - |r|] in rest;
          if j < |r| { assert (r + rest)[j] in r; }
        } else {
          assert r[j] in r && r[k] in r;
        }
      }
    }
  }

  /** The hits never grow, and every value from the start down to 1 occurs. */
  lemma DamageShape(more: Test, amount: int, start: int)
    requires StopsInTime(more)
    ensures NonIncreasing(TicksBy(more, amount, start))
    ensures forall v <- TicksBy(more, amount, start) :: 1 <= v <= start
    ensures forall v | 1 <= v <= start :: v in TicksBy(more, amount, start)
  {
    if start > 0 { TicksShape(more, start, start, Abs(amount), 0); }
  }

  // ---------------------------------------------------------------------
  // The test in single precision
  // ---------------------------------------------------------------------

  const SINGLE_LIMIT := 0x100_0000

  lemma SinglePrecision(limit: nat)
    ensures StopsInTime(CloserWithOneMore)
    ensures limit <= SINGLE_LIMIT ==> GoesOn(CloserWithOneMore, limit)
  {
    hide CloserWithOneMore;
    forall sum: nat, i: nat, med: nat ensures CloserWithOneMore(sum, i, med) ==> sum < med {
      StopsAtShare(sum, i, med);
    }
    if limit <= SINGLE_LIMIT {
      forall sum: nat, med: nat | 0 < sum < med <= limit ensures CloserWithOneMore(sum, 1, med) {
        GoesOnBelowShare(sum, 1, med);
      }
    }
  }

  /** The list that generateDamageList builds. */
  ghost function DamageTicks(amount: int, start: int): seq<int> {
    SinglePrecision(0);
    TicksBy(CloserWithOneMore, amount, start)
  }

  /** The ticks of one size that the loop deals. */
  ghost function TicksOf(i: nat, med: nat, sum: nat): seq<int>
    requires i > 0
  {
    SinglePrecision(0);
    Repeat(CloserWithOneMore, i, med, sum)
  }

  /** For shares below a third of 2^25 the ticks of i end as near the share as ticks of i can: one more brings
      the sum no closer, and neither does one less where there were several. */
  lemma NearestToShare(i: nat, med: nat, sum: nat)
    requires 0 < i <= 0x40_0000 && 3 * med < 0x200_0000
    ensures var e := sum + Sum(TicksOf(i, med, sum));
            2 * e + i >= 2 * med && (e == sum + i || 2 * e - i <= 2 * med)
  {
    hide CloserWithOneMore, Repeat, Sum;
    SinglePrecision(0);
    RepeatSum(CloserWithOneMore, i, med, sum);
    var e := sum + Sum(TicksOf(i, med, sum));
    if 2 * e + i != 2 * med { MidpointTest(e, i, med); }
    if e != sum + i && 2 * (e - i) + i != 2 * med { MidpointTest(e - i, i, med); }
  }

  /** Ticks of one cannot get past a multiple of 256 that is at least 2^24. */
  lemma {:induction false} LastTicks(med: nat, sum: nat, stop: nat)
    requires StopsInTime(CloserWithOneMore)
    requires sum + 1 <= stop && 0x100_0000 <= stop < 0x8000_0000 && stop % 256 == 0
    ensures sum + Sum(Repeat(CloserWithOneMore, 1, med, sum)) <= stop
    decreases med - sum
  {
    hide CloserWithOneMore;
    var r := Repeat(CloserWithOneMore, 1, med, sum);
    assert r[0] == 1;
    StuckAtMultiple(stop, med);
    if CloserWithOneMore(sum + 1, 1, med) {
      assert r[1..] == Repeat(CloserWithOneMore, 1, med, sum + 1);
      LastTicks(med, sum + 1, stop);
    } else {
      assert r[1..] == [];
    }
  }

  /** For amounts beyond 2^24 the staircase is low, and the share before the last ticks far below the amount. */
  lemma Gap(start: nat, amount: nat)
    requires start >= 2 && amount > SINGLE_LIMIT && start * amount < 0x8000_0000
    ensures Share(2, start, amount) + Stairs(2, start) + 256 < amount
  {
    if start >= 128 { MulMono(128, start, amount); }
    StairsClosed(2, start);
    MulMono(start - 1, 126, start + 2);
    var share := Share(2, start, amount);
    assert share * start <= (start - 1) * amount;
    assert (start - 1) * amount == start * amount - amount;
    var d := amount - share;
    assert d * start >= amount;
    if d <= 100000 { MulMono(start, 127, 100000); MulMono(d, 100000, start); }
  }

  lemma LastLevel(start: nat, amount: nat, sum: nat)
    requires StopsInTime(CloserWithOneMore)
    requires 1 <= start && amount > SINGLE_LIMIT && start * amount < 0x8000_0000
    requires sum <= if start == 1 then 0 else Share(2, start, amount) + Stairs(2, start)
    ensures sum + Sum(Repeat(CloserWithOneMore, 1, Share(1, start, amount), sum)) < amount
  {
    hide CloserWithOneMore, Repeat, Share, Sum;
    if start > 1 { Gap(start, amount); }
    MulMono(1, start, amount);
    var stop := if sum < SINGLE_LIMIT then SINGLE_LIMIT else (sum + 256) / 256 * 256;
    LastTicks(Share(1, start, amount), sum, stop);
  }

  /** Beyond 2^24 the last ticks stop short of the amount. */
  lemma {:induction false} FallsShort(i: nat, start: nat, amount: nat, sum: nat)
    requires StopsInTime(CloserWithOneMore)
    requires 1 <= i <= start && amount > SINGLE_LIMIT && start * amount < 0x8000_0000
    requires sum <= if i == start then 0 else Share(i + 1, start, amount) + Stairs(i + 1, start)
    ensures sum + Sum(Ticks(CloserWithOneMore, i, start, amount, sum)) < amount
    decreases i
  {
    hide CloserWithOneMore, Repeat, Share;
    var med := Share(i, start, amount);
    var r := Repeat(CloserWithOneMore, i, med, sum);
    RepeatSum(CloserWithOneMore, i, med, sum);
    var rest := Ticks(CloserWithOneMore, i - 1, start, amount, sum + Sum(r));
    SumAppend(r, rest);
    if i == 1 {
      assert rest == [];
      LastLevel(start, amount, sum);
    } else {
      if i < start { ShareMono(i, start, amount); }
      FallsShort(i - 1, start, amount, sum + Sum(r));
    }
  }

  lemma ShareMono(i: nat, start: nat, amount: nat)
    requires 1 <= i < start
    ensures Share(i, start, amount) >= Share(i + 1, start, amount)
  {
    var x := (start - i) * amount;
    assert (start + 1 - i) * amount == x + amount;
    DivGrows(x, amount, 0, start);
  }

  /** No intermediate value leaves 32 bits. */
  predicate NoOverflow(amount: int, start: int) {
    start >= 1 ==> start * Abs(amount) < 0x8000_0000 && start * (start + 1) < 0x8000_0000
  }

  /** The list adds up to the amount, or to the bare staircase when that is more, exactly for amounts up to
      2^24. Beyond, single precision loses the last ticks. */
  lemma SingleTotal(amount: int, start: int)
    requires start >= 1 && NoOverflow(amount, start)
    ensures Sum(DamageTicks(amount, start)) == Max(Abs(amount), start * (start + 1) / 2) <==> Abs(amount) <= SINGLE_LIMIT
    ensures start * (start + 1) / 2 <= Sum(DamageTicks(amount, start)) <= Max(Abs(amount), start * (start + 1) / 2)
  {
    hide CloserWithOneMore;
    var limit := Abs(amount);
    SinglePrecision(limit);
    DamageTotal(CloserWithOneMore, amount, start);
    if limit > SINGLE_LIMIT {
      FallsShort(start, start, limit, 0);
    }
  }

  lemma ListShape(amount: int, start: int)
    ensures NonIncreasing(DamageTicks(amount, start))
    ensures forall v <- DamageTicks(amount, start) :: 1 <= v <= start
    ensures forall v | 1 <= v <= start :: v in DamageTicks(amount, start)
  {
    hide CloserWithOneMore;
    SinglePrecision(0);
    DamageShape(CloserWithOneMore, amount, start);
  }

  lemma TieRepeats()
    requires StopsInTime(CloserWithOneMore)
    ensures Repeat(CloserWithOneMore, 3, 3, 0) == [3]
    ensures Repeat(CloserWithOneMore, 2, 6, 3) == [2, 2]
    ensures Repeat(CloserWithOneMore, 1, 9, 7) == [1, 1]
  {
    hide CloserWithOneMore;
    TiesGoEitherWay();
    StopsAtShare(3, 3, 3);
    StopsAtShare(7, 2, 6);
    GoesOnBelowShare(8, 1, 9);
    StopsAtShare(9, 1, 9);
    assert Repeat(CloserWithOneMore, 2, 6, 5) == [2];
    assert Repeat(CloserWithOneMore, 1, 9, 8) == [1];
  }

  lemma TicksUnfold(more: Test, i: nat, start: nat, amount: nat, sum: nat, r: seq<int>)
    requires 0 < i <= start && StopsInTime(more) && r == Repeat(more, i, Share(i, start, amount), sum) && Sum(r) >= 0
    ensures Ticks(more, i, start, amount, sum) == r + Ticks(more, i - 1, start, amount, sum + Sum(r))
  {
    hide Repeat, Share, Sum;
  }

  lemma ThreeLevels(more: Test, t: nat, a: nat, x: seq<int>, y: seq<int>, z: seq<int>)
    requires t == 3 && StopsInTime(more) && Sum(x) >= 0 && Sum(y) >= 0 && Sum(z) >= 0
    requires x == Repeat(more, t, Share(t, t, a), 0)
    requires y == Repeat(more, t - 1, Share(t - 1, t, a), Sum(x))
    requires z == Repeat(more, t - 2, Share(t - 2, t, a), Sum(x) + Sum(y))
    ensures Ticks(more, t, t, a, 0) == x + (y + z)
  {
    hide Repeat, Sum, Share, Ticks;
    TicksUnfold(more, t, t, a, 0, x);
    TicksUnfold(more, t - 1, t, a, Sum(x), y);
    TicksUnfold(more, t - 2, t, a, Sum(x) + Sum(y), z);
    NoTicks(more, t - 3, t, a, Sum(x) + Sum(y) + Sum(z));
    assert z + [] == z;
  }

  lemma NoTicks(more: Test, i: nat, start: nat, amount: nat, sum: nat)
    requires i == 0 && StopsInTime(more)
    ensures Ticks(more, i, start, amount, sum) == []
  {
  }

  lemma ShareIs(i: nat, start: nat, amount: nat, q: nat)
    requires 1 <= i <= start && (start + 1 - i) * amount == q * start
    ensures Share(i, start, amount) == q
  {
    ModUnique((start + 1 - i) * amount, start, q, 0);
  }

  /** A list in which the rounding of a tie shows: after 3 and 2 the sum is 5 of 6, and another 2 follows. */
  lemma TieShows()
    ensures DamageTicks(9, 3) == [3, 2, 2, 1, 1]
  {
    hide CloserWithOneMore, Repeat, Sum, Share, Ticks;
    SinglePrecision(0);
    TieRepeats();
    SmallSums();
    ShareIs(3, 3, 9, 3);
    ShareIs(2, 3, 9, 6);
    ShareIs(1, 3, 9, 9);
    ThreeLevels(CloserWithOneMore, 3, 9, [3], [2, 2], [1, 1]);
    assert [3] + ([2, 2] + [1, 1]) == [3, 2, 2, 1, 1];
  }

  lemma SmallSums()
    ensures Sum([1, 1]) == 2 && Sum([2, 2]) == 4 && Sum([3]) == 3
  {
    SumOne(1);
    SumOne(2);
    SumOne(3);
    assert [1, 1][1..] == [1] && [2, 2][1..] == [2];
  }

  /** The first amount that is not dealt in full. */
  lemma FirstShortAmount()
    ensures NoOverflow(0x100_0001, 1) && Sum(DamageTicks(0x100_0001, 1)) < 0x100_0001
  {
    SingleTotal(0x100_0001, 1);
  }

  method GenerateDamageList(amount: int, start: int) returns (list: seq<int>)
    requires NoOverflow(amount, start)
    ensures list == DamageTicks(amount, start)
    ensures 0 <= Sum(list) < 0x8000_0000
  {
    hide Repeat, Sum, CloserWithOneMore;
    var total := Abs(amount);
    var sum: nat := 0;
    list := [];
    var i := start;
    SinglePrecision(0);
    while i > 0
      invariant start > 0 ==> 0 <= i <= start
      invariant start <= 0 ==> list == []
      invariant start > 0 ==> list + Ticks(CloserWithOneMore, i, start, total, sum) == DamageTicks(amount, start)
      decreases i
    {
      var n := start + 1 - i;
      var med := n * total / start;
      ghost var whole := Repeat(CloserWithOneMore, i, med, sum);
      ghost var sum0 := sum;
      ghost var list0 := list;
      assert med == Share(i, start, total);
      RepeatSum(CloserWithOneMore, i, med, sum);
      var again := true;
      while again
        invariant sum >= sum0
        invariant again ==>
                    && list + Repeat(CloserWithOneMore, i, med, sum) == list0 + whole
                    && sum + Sum(Repeat(CloserWithOneMore, i, med, sum)) == sum0 + Sum(whole)
        invariant !again ==> list == list0 + whole && sum == sum0 + Sum(whole)
        decreases again, med - sum
      {
        RepeatUnfold(i, med, sum);
        sum := sum + i;
        list := list + [i];
        again := CloserWithOneMore(sum, i, med);
      }
      Assoc(list0, whole, Ticks(CloserWithOneMore, i - 1, start, total, sum));
      i := i - 1;
    }
    if start > 0 {
      assert list + [] == list;
      SumFits(amount, start);
    } else {
      NoSum();
    }
  }

  lemma SumFits(amount: int, start: int)
    requires start >= 1 && NoOverflow(amount, start)
    ensures 0 <= Sum(DamageTicks(amount, start)) < 0x8000_0000
  {
    hide CloserWithOneMore, Sum, DamageTicks;
    SingleTotal(amount, start);
    MulMono(1, start, Abs(amount));
  }

  lemma NoSum()
    ensures Sum([]) == 0
  {
  }

  lemma RepeatUnfold(i: nat, med: nat, sum: nat)
    requires i > 0 && StopsInTime(CloserWithOneMore)
    ensures CloserWithOneMore(sum + i, i, med) ==>
              && Repeat(CloserWithOneMore, i, med, sum) == [i] + Repeat(CloserWithOneMore, i, med, sum + i)
              && Sum(Repeat(CloserWithOneMore, i, med, sum)) == i + Sum(Repeat(CloserWithOneMore, i, med, sum + i))
    ensures !CloserWithOneMore(sum + i, i, med) ==>
              Repeat(CloserWithOneMore, i, med, sum) == [i] && Sum(Repeat(CloserWithOneMore, i, med, sum)) == i
  {
    hide CloserWithOneMore;
    var r := Repeat(CloserWithOneMore, i, med, sum);
    assert r[0] == i;
    if CloserWithOneMore(sum + i, i, med) {
      assert r[1..] == Repeat(CloserWithOneMore, i, med, sum + i);
    } else {
      assert r[1..] == [];
    }
  }

  // ---------------------------------------------------------------------
  // The condition
  // ---------------------------------------------------------------------

  datatype IntervalInfo = IntervalInfo(timeLeft: int, value: int, interval: int)

  function Values(s: seq<IntervalInfo>): (r: seq<int>)
    ensures |r| == |s| && forall k | 0 <= k < |s| :: r[k] == s[k].value
  {
    if s == [] then [] else [s[0].value] + Values(s[1..])
  }

  function Hits(ticks: seq<int>, time: int): (r: seq<IntervalInfo>)
    ensures |r| == |ticks| && forall k | 0 <= k < |r| :: r[k] == IntervalInfo(time, -ticks[k], time)
  {
    if ticks == [] then [] else [IntervalInfo(time, -ticks[0], time)] + Hits(ticks[1..], time)
  }

  lemma {:induction false} HitsSum(ticks: seq<int>, time: int)
    ensures Sum(Values(Hits(ticks, time))) == -Sum(ticks)
  {
    if ticks != [] {
      HitsSum(ticks[1..], time);
      assert Hits(ticks, time)[1..] == Hits(ticks[1..], time);
      assert Values(Hits(ticks, time))[1..] == Values(Hits(ticks[1..], time));
    }
  }

  /** The start value init() works with. */
  function EffectiveStart(amount: int, startDamage: int, maxDamage: int): int {
    if startDamage > maxDamage then maxDamage
    else if startDamage == 0 then Max(1, -((-amount) / 20))
    else startDamage
  }

  class ConditionDamage {
    var minDamage: int
    var maxDamage: int
    var startDamage: int
    var periodDamage: int
    var tickInterval: int
    var ticks: int
    var damageList: seq<IntervalInfo>

    /** Appends a number of equal hits, or turns the condition into an endless periodic one. */
    method AddDamage(rounds: int, time0: int, value: int) returns (ok: bool)
      modifies `periodDamage, `tickInterval, `ticks, `damageList
      ensures rounds == -1 ==>
                && ok && periodDamage == value && tickInterval == Max(time0, THINK_INTERVAL) && ticks == -1
                && damageList == old(damageList)
      ensures rounds != -1 ==> periodDamage == old(periodDamage) && tickInterval == old(tickInterval)
      ensures rounds != -1 ==> ok == (old(periodDamage) <= 0)
      ensures rounds != -1 && !ok ==> damageList == old(damageList) && ticks == old(ticks)
      ensures rounds != -1 && ok ==>
                && damageList == old(damageList) + seq(Max(rounds, 0), _ =>
                     IntervalInfo(Max(time0, THINK_INTERVAL), value, Max(time0, THINK_INTERVAL)))
                && (old(ticks) >= 0 ==> ticks == old(ticks) + Max(rounds, 0) * Max(time0, THINK_INTERVAL))
                && (old(ticks) == -1 ==> ticks == -1)
    {
      var time := Max(time0, THINK_INTERVAL);
      if rounds == -1 {
        periodDamage := value;
        tickInterval := Abs(time);
        ticks := -1;
        return true;
      }
      if periodDamage > 0 {
        return false;
      }
      var i := 0;
      while i < rounds
        invariant 0 <= i <= Max(rounds, 0)
        invariant periodDamage == old(periodDamage) && tickInterval == old(tickInterval)
        invariant damageList == old(damageList) + seq(i, _ => IntervalInfo(time, value, time))
        invariant old(ticks) >= 0 ==> ticks == old(ticks) + i * time
        invariant old(ticks) == -1 ==> ticks == -1
      {
        damageList := damageList + [IntervalInfo(time, value, time)];
        if ticks != -1 {
          ticks := ticks + time;
        }
        i := i + 1;
      }
      return true;
    }

    method AddHits(list: seq<int>)
      requires periodDamage == 0 && damageList == [] && ticks == 0
      modifies `periodDamage, `tickInterval, `ticks, `damageList
      ensures periodDamage == 0 && tickInterval == old(tickInterval)
      ensures damageList == Hits(list, Max(tickInterval, THINK_INTERVAL))
      ensures ticks == |damageList| * Max(tickInterval, THINK_INTERVAL)
    {
      hide Hits;
      var time := Max(tickInterval, THINK_INTERVAL);
      var k := 0;
      while k < |list|
        invariant 0 <= k <= |list|
        invariant damageList == Hits(list[..k], time)
        invariant ticks == k * time
        invariant periodDamage == 0 && tickInterval == old(tickInterval)
      {
        var ok := AddDamage(1, tickInterval, -list[k]);
        HitsSnoc(list, k, time);
        assert (k + 1) * time == k * time + time;
        k := k + 1;
      }
      assert list[..k] == list;
    }

    /** Fills the list; `amount` is the random damage between the minimum and the maximum. */
    method Init(amount: int) returns (ok: bool)
      requires NoOverflow(amount, EffectiveStart(amount, startDamage, maxDamage))
      modifies this
      ensures old(periodDamage) != 0 || old(damageList) != [] ==>
                ok && damageList == old(damageList) && ticks == old(ticks) && startDamage == old(startDamage)
      ensures old(periodDamage) == 0 && old(damageList) == [] ==>
                && startDamage == (if amount == 0 then old(startDamage) else EffectiveStart(amount, old(startDamage), maxDamage))
                && damageList == (if amount == 0 then [] else Hits(DamageTicks(amount, startDamage), Max(tickInterval, THINK_INTERVAL)))
                && ticks == |damageList| * Max(tickInterval, THINK_INTERVAL)
                && ok == (damageList != [])
      ensures periodDamage == old(periodDamage) && tickInterval == old(tickInterval)
      ensures minDamage == old(minDamage) && maxDamage == old(maxDamage)
    {
      hide DamageTicks;
      if periodDamage != 0 {
        return true;
      }
      if damageList != [] {
        return true;
      }
      ticks := 0;
      if amount != 0 {
        if startDamage > maxDamage {
          startDamage := maxDamage;
        } else if startDamage == 0 {
          startDamage := Max(1, -((-amount) / 20));
        }
        var list := GenerateDamageList(amount, startDamage);
        AddHits(list);
      }
      return damageList != [];
    }

    function GetTotalDamage(): nat
      reads this
    {
      if damageList != [] then Abs(Sum(Values(damageList)))
      else
        // halves of negative spans round towards zero
        var span := maxDamage - minDamage;
        Abs(minDamage + (if span < 0 then -((-span) / 2) else span / 2))
    }
  }

  lemma HitsSnoc(list: seq<int>, k: nat, time: int)
    requires k < |list|
    ensures Hits(list[..k + 1], time) == Hits(list[..k], time) + [IntervalInfo(time, -list[k], time)]
  {
  }

  /** A freshly filled condition deals the amount, or the whole staircase when that is more, exactly for amounts
      up to 2^24, never more, and lasts as long as its hits. */
  method InitAndTotal(c: ConditionDamage, amount: int) returns (total: nat)
    requires c.periodDamage == 0 && c.damageList == [] && amount > 0
    requires EffectiveStart(amount, c.startDamage, c.maxDamage) >= 1
    requires NoOverflow(amount, EffectiveStart(amount, c.startDamage, c.maxDamage))
    modifies c
    ensures total == c.GetTotalDamage()
    ensures var start := EffectiveStart(amount, old(c.startDamage), c.maxDamage);
            && (total == Max(amount, start * (start + 1) / 2) <==> amount <= SINGLE_LIMIT)
            && total <= Max(amount, start * (start + 1) / 2)
    ensures c.ticks == |c.damageList| * Max(c.tickInterval, THINK_INTERVAL) && c.damageList != []
  {
    hide DamageTicks, Sum, Values, Hits, CloserWithOneMore, NonIncreasing, NoOverflow;
    var _ := c.Init(amount);
    ListTotal(amount, c.startDamage, Max(c.tickInterval, THINK_INTERVAL));
    total := c.GetTotalDamage();
  }

  lemma ListTotal(amount: int, start: int, time: int)
    requires start >= 1 && amount > 0 && NoOverflow(amount, start)
    ensures var hits := Hits(DamageTicks(amount, start), time);
            && hits != []
            && (Abs(Sum(Values(hits))) == Max(amount, start * (start + 1) / 2) <==> amount <= SINGLE_LIMIT)
            && Abs(Sum(Values(hits))) <= Max(amount, start * (start + 1) / 2)
  {
    hide DamageTicks, Sum, Values, Hits, CloserWithOneMore, NoOverflow;
    SingleTotal(amount, start);
    ListShape(amount, start);
    assert start in DamageTicks(amount, start);
    HitsSum(DamageTicks(amount, start), time);
    assert start * (start + 1) >= 0;
  }
}
