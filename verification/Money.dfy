/** Paying with coins: the smallest piles go first, one pile is broken, the difference comes back as change. */
module Money {

  import opened Basics
  import FloatingPoint

  const WORD := 0x1_0000_0000
  const HALFWORD := 0x1_0000
  const BATCH := 100

  /** A stack of coins of one kind; `worth` is the worth of a single coin. */
  datatype Pile = Pile(unit: nat, count: nat)

  /** The worth of a pile, as the 32-bit number the source computes. */
  function Worth(p: Pile): nat { (p.unit * p.count) % WORD }

  predicate Fits(p: Pile) { p.unit * p.count < WORD }

  function Total(s: seq<Pile>): nat {
    if s == [] then 0 else s[0].unit * s[0].count + Total(s[1..])
  }

  lemma {:induction false} TotalAppend(a: seq<Pile>, b: seq<Pile>)
    ensures Total(a + b) == Total(a) + Total(b)
  {
    if a == [] {
      assert a + b == b;
    } else {
      assert (a + b)[1..] == a[1..] + b;
      TotalAppend(a[1..], b);
    }
  }

  lemma TotalOne(p: Pile)
    ensures Total([p]) == p.unit * p.count
  {
    assert [p][1..] == [];
  }

  /** The number of coins of one kind. */
  function Held(s: seq<Pile>, unit: nat): nat {
    if s == [] then 0 else (if s[0].unit == unit then s[0].count else 0) + Held(s[1..], unit)
  }

  lemma {:induction false} HeldAppend(s: seq<Pile>, p: Pile, unit: nat)
    ensures Held(s + [p], unit) == Held(s, unit) + if p.unit == unit then p.count else 0
  {
    if s == [] {
      assert s + [p] == [p] && [p][1..] == [];
    } else {
      assert (s + [p])[1..] == s[1..] + [p];
      HeldAppend(s[1..], p, unit);
    }
  }

  lemma {:induction false} HeldUpdate(s: seq<Pile>, i: nat, p: Pile, unit: nat)
    requires i < |s| && p.unit == s[i].unit && p.count >= s[i].count
    ensures Held(s[i := p], unit) == Held(s, unit) + if p.unit == unit then p.count - s[i].count else 0
  {
    if i > 0 {
      assert s[i := p][1..] == s[1..][i - 1 := p];
      HeldUpdate(s[1..], i - 1, p, unit);
    } else {
      assert s[i := p][1..] == s[1..];
    }
  }

  // ---------------------------------------------------------------------
  // Handing out coins of one kind, a hundred at a time
  // ---------------------------------------------------------------------

  /** The size of the next stack: the count is first cut to 16 bits. */
  function NextStack(coins: nat): (n: nat)
    ensures n <= coins
  {
    if coins % HALFWORD < BATCH then coins % HALFWORD else BATCH
  }

  function Left(coins: nat, rounds: nat): nat {
    if rounds == 0 then coins else Left(coins - NextStack(coins), rounds - 1)
  }

  /** From 65536 coins on, the loop comes to a count whose low 16 bits are zero and stays there. */
  lemma {:induction false} NeverDone(coins: nat, rounds: nat)
    requires coins >= HALFWORD
    ensures Left(coins, rounds) >= HALFWORD
    decreases rounds
  {
    if rounds > 0 { NeverDone(coins - NextStack(coins), rounds - 1); }
  }

  lemma {:induction false} DoneInTime(coins: nat)
    requires coins < HALFWORD
    ensures exists rounds: nat :: Left(coins, rounds) == 0
    decreases coins
  {
    if coins == 0 {
      assert Left(coins, 0) == 0;
    } else {
      var rest := coins - NextStack(coins);
      DoneInTime(rest);
      var r: nat :| Left(rest, r) == 0;
      assert Left(coins, r + 1) == 0;
    }
  }

  /** The exact condition under which handing out coins comes to an end. */
  lemma HandingOutEnds(coins: nat)
    ensures (exists rounds: nat :: Left(coins, rounds) == 0) <==> coins < HALFWORD
  {
    if coins < HALFWORD {
      DoneInTime(coins);
    } else {
      forall rounds: nat ensures Left(coins, rounds) != 0 { NeverDone(coins, rounds); }
    }
  }

  /** The coins of the next stack: none is created without a coin in it. */
  function Created(coins: nat): (n: nat)
    ensures n >= 1
  {
    if NextStack(coins) == 0 then 1 else NextStack(coins)
  }

  /** How many coins have come in after so many rounds. */
  function CameOut(coins: nat, rounds: nat): nat {
    if rounds == 0 || coins == 0 then 0 else Created(coins) + CameOut(coins - NextStack(coins), rounds - 1)
  }

  /** From 65536 coins on every round brings in at least one more, without end. */
  lemma {:induction false} GrowsForEver(coins: nat, rounds: nat)
    requires coins >= HALFWORD
    ensures CameOut(coins, rounds) >= rounds && Left(coins, rounds) >= HALFWORD
    decreases rounds
  {
    if rounds > 0 { GrowsForEver(coins - NextStack(coins), rounds - 1); }
  }

  /** Below, exactly the coins that were due have come in when nothing is left. */
  lemma {:induction false} AllCameOut(coins: nat, rounds: nat)
    requires coins < HALFWORD
    ensures CameOut(coins, rounds) + Left(coins, rounds) == coins
    decreases rounds
  {
    if rounds > 0 && coins > 0 {
      AllCameOut(coins - NextStack(coins), rounds - 1);
    } else if rounds > 0 {
      AllCameOut(0, rounds - 1);
    }
  }

  /** With 65536 coins the count is zero in every round, and yet every round brings in a coin. */
  lemma {:induction false} FirstStuckCount(rounds: nat)
    ensures Left(HALFWORD, rounds) == HALFWORD && CameOut(HALFWORD, rounds) == rounds
    decreases rounds
  {
    if rounds > 0 { FirstStuckCount(rounds - 1); }
  }

  function Stacks(unit: nat, coins: nat): (s: seq<Pile>)
    requires coins < HALFWORD
    decreases coins
  {
    if coins == 0 then [] else [Pile(unit, NextStack(coins))] + Stacks(unit, coins - NextStack(coins))
  }

  lemma {:induction false} StacksTotal(unit: nat, coins: nat)
    requires coins < HALFWORD
    ensures Total(Stacks(unit, coins)) == unit * coins
    ensures forall p <- Stacks(unit, coins) :: p.unit == unit && 1 <= p.count <= BATCH
    decreases coins
  {
    if coins > 0 {
      var n := NextStack(coins);
      var rest := Stacks(unit, coins - n);
      StacksTotal(unit, coins - n);
      assert Stacks(unit, coins)[1..] == rest;
      assert unit * n + unit * (coins - n) == unit * coins;
    }
  }

  // ---------------------------------------------------------------------
  // Change
  // ---------------------------------------------------------------------

  /** The currency table: worths of a single coin, largest first. */
  ghost predicate Currency(worths: seq<nat>) {
    (forall i | 0 <= i < |worths| :: worths[i] > 0) &&
    forall i, j | 0 <= i < j < |worths| :: worths[i] > worths[j]
  }

  function Coins(money: nat, worth: nat): nat
    requires worth > 0
  {
    (money / worth) % WORD
  }

  /** What is left over after the coins of the first n kinds have been taken out. */
  function Rest(money: nat, worths: seq<nat>, n: nat): (r: nat)
    requires n <= |worths| && forall i | 0 <= i < |worths| :: worths[i] > 0
    ensures r <= money
  {
    if n == 0 then money
    else
      var m := Rest(money, worths, n - 1);
      QuotientFits(m, worths[n - 1]);
      m - Coins(m, worths[n - 1]) * worths[n - 1]
  }

  lemma QuotientFits(m: nat, w: nat)
    requires w > 0
    ensures Coins(m, w) * w <= m
    ensures m < WORD ==> m - Coins(m, w) * w < w && Coins(m, w) == m / w
  {
    var q := m / w;
    assert q * w <= m < q * w + w;
    MulMono(q % WORD, q, w);
    if m < WORD { assert q <= m by { MulMono(1, w, q); } }
  }

  /** Handing out the change comes to an end. */
  ghost predicate Payable(money: nat, worths: seq<nat>)
    requires forall i | 0 <= i < |worths| :: worths[i] > 0
  {
    forall n | 0 <= n < |worths| :: Coins(Rest(money, worths, n), worths[n]) < HALFWORD
  }

  /** With a coin of worth one in the table, change below 2^32 leaves nothing over. */
  lemma NothingLeft(money: nat, worths: seq<nat>)
    requires Currency(worths) && 1 in worths && money < WORD
    ensures Rest(money, worths, |worths|) == 0
  {
    var last := |worths| - 1;
    var k :| 0 <= k < |worths| && worths[k] == 1;
    if k < last { assert worths[k] > worths[last]; }
    QuotientFits(Rest(money, worths, last), 1);
  }

  /** Every amount below the limit can be handed out. */
  ghost predicate PayableBelow(limit: nat, worths: seq<nat>)
    requires forall i | 0 <= i < |worths| :: worths[i] > 0
  {
    forall money: nat | money < limit :: Payable(money, worths)
  }

  /** What can be left for a kind of coin, less than the limit and less than the coin before, is at most 65536 of it. */
  ghost predicate CloseSteps(limit: nat, worths: seq<nat>) {
    forall i | 0 <= i < |worths| :: limit <= HALFWORD * worths[i] || (i > 0 && worths[i - 1] <= HALFWORD * worths[i])
  }

  /** The exact condition on the table: all change below a limit is handed out if and only if the steps are close. */
  lemma CloseStepsPay(limit: nat, worths: seq<nat>)
    requires Currency(worths) && limit <= WORD
    ensures PayableBelow(limit, worths) <==> CloseSteps(limit, worths)
  {
    if CloseSteps(limit, worths) {
      forall money: nat | money < limit ensures Payable(money, worths) { StepsPay(money, limit, worths); }
    } else {
      var i :| 0 <= i < |worths| && limit > HALFWORD * worths[i] && (i > 0 ==> worths[i - 1] > HALFWORD * worths[i]);
      WideStep(worths, i);
    }
  }

  lemma StepsPay(money: nat, limit: nat, worths: seq<nat>)
    requires Currency(worths) && CloseSteps(limit, worths) && money < limit <= WORD
    ensures Payable(money, worths)
  {
    forall n | 0 <= n < |worths| ensures Coins(Rest(money, worths, n), worths[n]) < HALFWORD {
      var rest := Rest(money, worths, n);
      if n > 0 { QuotientFits(Rest(money, worths, n - 1), worths[n - 1]); }
      QuotientFits(rest, worths[n]);
      if Coins(rest, worths[n]) >= HALFWORD { MulMono(HALFWORD, Coins(rest, worths[n]), worths[n]); }
    }
  }

  /** Below a step that is too wide lies an amount that is never handed out. */
  lemma WideStep(worths: seq<nat>, i: nat)
    requires Currency(worths) && i < |worths| && HALFWORD * worths[i] < WORD
    requires i > 0 ==> worths[i - 1] > HALFWORD * worths[i]
    ensures !Payable(HALFWORD * worths[i], worths)
  {
    var money := HALFWORD * worths[i];
    Untouched(money, worths, i);
    ModUnique(money, worths[i], HALFWORD, 0);
  }

  /** Coins worth more than the amount leave it as it is. */
  lemma {:induction false} Untouched(money: nat, worths: seq<nat>, n: nat)
    requires Currency(worths) && n <= |worths| && (n > 0 ==> worths[n - 1] > money)
    ensures Rest(money, worths, n) == money
    decreases n
  {
    if n > 0 {
      if n > 1 { assert worths[n - 2] > worths[n - 1]; }
      Untouched(money, worths, n - 1);
      ModUnique(money, worths[n - 1], 0, money);
    }
  }

  // ---------------------------------------------------------------------
  // The piles in the order they are spent
  // ---------------------------------------------------------------------

  lemma {:induction false} TotalUpdate(s: seq<Pile>, i: nat, p: Pile)
    requires i < |s|
    ensures Total(s[i := p]) == Total(s) - s[i].unit * s[i].count + p.unit * p.count
  {
    if i > 0 {
      assert s[i := p][1..] == s[1..][i - 1 := p];
      TotalUpdate(s[1..], i - 1, p);
    } else {
      assert s[i := p][1..] == s[1..];
    }
  }

  predicate InRange(order: seq<nat>, n: nat) {
    forall k | 0 <= k < |order| :: order[k] < n
  }

  /** The worth of the piles at the given places together. */
  function WorthAt(s: seq<Pile>, order: seq<nat>): nat
    requires InRange(order, |s|)
  {
    if order == [] then 0 else Worth(s[order[0]]) + WorthAt(s, order[1..])
  }

  lemma {:induction false} WorthAtInsert(s: seq<Pile>, order: seq<nat>, k: nat, i: nat)
    requires InRange(order, |s|) && k <= |order| && i < |s|
    ensures WorthAt(s, Insert(order, k, i)) == WorthAt(s, order) + Worth(s[i])
  {
    var t := Insert(order, k, i);
    if k == 0 {
      assert t[1..] == order;
    } else {
      assert t[1..] == Insert(order[1..], k - 1, i);
      WorthAtInsert(s, order[1..], k - 1, i);
    }
  }

  /** A smaller worth comes first, and of equal ones the one met first. */
  predicate Before(s: seq<Pile>, a: nat, b: nat)
    requires a < |s| && b < |s|
  {
    Worth(s[a]) < Worth(s[b]) || (Worth(s[a]) == Worth(s[b]) && a < b)
  }

  /** Exactly those of the first n piles that are worth something, each once, in the order of spending. */
  ghost predicate Ascending(s: seq<Pile>, order: seq<nat>, n: nat) {
    n <= |s| && InRange(order, n) &&
    (forall i | 0 <= i < n :: Worth(s[i]) != 0 <==> i in order) &&
    forall j, k | 0 <= j < k < |order| :: Before(s, order[j], order[k])
  }

  function Insert(order: seq<nat>, k: nat, i: nat): (t: seq<nat>)
    requires k <= |order|
    ensures |t| == |order| + 1
    ensures forall j | 0 <= j < |t| :: t[j] == if j < k then order[j] else if j == k then i else order[j - 1]
    ensures forall h :: h in t <==> h == i || h in order
  {
    assert order == order[..k] + order[k..];
    order[..k] + [i] + order[k..]
  }

  lemma InsertAscending(s: seq<Pile>, order: seq<nat>, k: nat, i: nat)
    requires Ascending(s, order, i) && k <= |order| && i < |s| && Worth(s[i]) != 0
    requires k > 0 ==> Before(s, order[k - 1], i)
    requires k < |order| ==> Before(s, i, order[k])
    ensures Ascending(s, Insert(order, k, i), i + 1)
  {
    hide Worth, Before;
    var t := Insert(order, k, i);
    forall j | 0 <= j < |t| ensures t[j] < i + 1 && (j < k ==> t[j] == order[j]) && (j > k ==> t[j] == order[j - 1]) {
    }
    forall h, j | 0 <= h < j < |t| ensures Before(s, t[h], t[j]) {
      if h < k {
        if j == k {
          if h < k - 1 { BeforeTrans(s, order[h], order[k - 1], i); }
        } else {
          assert Before(s, order[h], order[if j < k then j else j - 1]);
        }
      } else if h == k {
        if k < j - 1 { BeforeTrans(s, i, order[k], order[j - 1]); }
      } else {
        assert Before(s, order[h - 1], order[j - 1]);
      }
    }
  }

  lemma BeforeTrans(s: seq<Pile>, a: nat, b: nat, c: nat)
    requires a < |s| && b < |s| && c < |s| && Before(s, a, b) && Before(s, b, c)
    ensures Before(s, a, c)
  {
  }

  /** Where the next pile goes: behind all that are worth no more. */
  method FindPlace(s: seq<Pile>, order: seq<nat>, i: nat) returns (k: nat)
    requires Ascending(s, order, i) && i < |s|
    ensures k <= |order|
    ensures k > 0 ==> Before(s, order[k - 1], i)
    ensures k < |order| ==> Before(s, i, order[k])
  {
    hide Worth;
    k := |order|;
    while k > 0 && Worth(s[order[k - 1]]) > Worth(s[i])
      invariant 0 <= k <= |order|
      invariant k < |order| ==> Before(s, i, order[k])
    {
      k := k - 1;
    }
  }

  /** The map from worths to piles that the search fills. */
  method SortPiles(s: seq<Pile>) returns (order: seq<nat>, count: nat)
    requires forall p <- s :: Fits(p)
    ensures Ascending(s, order, |s|)
    ensures count == WorthAt(s, order) == Total(s)
  {
    hide Worth, Fits, Before, Insert;
    order, count := [], 0;
    for i := 0 to |s|
      invariant Ascending(s, order, i)
      invariant count == WorthAt(s, order) == Total(s[..i])
    {
      var worth := Worth(s[i]);
      SearchStep(s, i);
      if worth != 0 {
        count := count + worth;
        var k := FindPlace(s, order, i);
        WorthAtInsert(s, order, k, i);
        InsertAscending(s, order, k, i);
        order := Insert(order, k, i);
      }
    }
    assert s[..|s|] == s;
  }

  lemma SearchStep(s: seq<Pile>, i: nat)
    requires i < |s| && Fits(s[i])
    ensures Total(s[..i + 1]) == Total(s[..i]) + Worth(s[i])
  {
    WorthOf(s[i]);
    assert s[..i + 1] == s[..i] + [s[i]];
    TotalAppend(s[..i], [s[i]]);
    TotalOne(s[i]);
  }

  lemma WorthOf(p: Pile)
    requires Fits(p)
    ensures Worth(p) == p.unit * p.count
  {
  }

  // ---------------------------------------------------------------------
  // Paying
  // ---------------------------------------------------------------------

  /** What putting coins down may do to the piles already there: only live piles of that kind grow. */
  ghost predicate Grown(before: seq<Pile>, after: seq<Pile>, below: nat) {
    |before| <= |after| &&
    forall i | 0 <= i < |before| ::
      after[i].unit == before[i].unit && after[i].count >= before[i].count &&
      (after[i].count > before[i].count ==> before[i].count > 0 && before[i].unit <= below)
  }

  /** Coins of one kind have come in, to one place or the other, and none of any other kind. */
  ghost predicate CameIn(a: seq<Pile>, b: seq<Pile>, a': seq<Pile>, b': seq<Pile>, unit: nat, coins: nat) {
    forall u: nat :: Held(a', u) + Held(b', u) == Held(a, u) + Held(b, u) + if u == unit then coins else 0
  }

  lemma ToppedUp(a: seq<Pile>, g: seq<Pile>, s: seq<Pile>, i: nat, moved: nat, so: nat)
    requires i < |s| && s[i].count > 0 && Grown(a, s, s[i].unit) && CameIn(a, g, s, g, s[i].unit, so)
    ensures var t := s[i := Pile(s[i].unit, s[i].count + moved)];
            && Total(t) == Total(s) + s[i].unit * moved
            && Grown(a, t, s[i].unit) && CameIn(a, g, t, g, s[i].unit, so + moved)
  {
    hide Total, Held;
    var p := Pile(s[i].unit, s[i].count + moved);
    TotalUpdate(s, i, p);
    Spread(s[i].unit, s[i].count, moved);
    forall u: nat ensures Held(s[i := p], u) == Held(s, u) + if p.unit == u then moved else 0 {
      HeldUpdate(s, i, p, u);
    }
  }

  lemma Appended(a: seq<Pile>, g: seq<Pile>, s: seq<Pile>, p: Pile, so: nat)
    requires Grown(a, s, p.unit) && CameIn(a, g, s, g, p.unit, so)
    ensures Total(s + [p]) == Total(s) + p.unit * p.count
    ensures Grown(a, s + [p], p.unit) && CameIn(a, g, s + [p], g, p.unit, so + p.count)
  {
    hide Total, Held;
    TotalAppend(s, [p]);
    TotalOne(p);
    forall u: nat ensures Held(s + [p], u) == Held(s, u) + if p.unit == u then p.count else 0 {
      HeldAppend(s, p, u);
    }
  }

  lemma Dropped(s: seq<Pile>, g: seq<Pile>, p: Pile)
    ensures Total(g + [p]) == Total(g) + p.unit * p.count
    ensures Grown(g, g + [p], p.unit) && CameIn(s, g, s, g + [p], p.unit, p.count)
  {
    hide Total, Held;
    TotalAppend(g, [p]);
    TotalOne(p);
    forall u: nat ensures Held(g + [p], u) == Held(g, u) + if p.unit == u then p.count else 0 {
      HeldAppend(g, p, u);
    }
  }

  lemma {:induction false} NothingDue(rounds: nat)
    ensures Left(0, rounds) == 0
  {
    if rounds > 0 { NothingDue(rounds - 1); }
  }

  /** Where the money is: with the payer, or on the ground when change did not fit. */
  class Purse {
    /** The piles in the cylinder and its containers, in the order the search meets them; a pile of no coins is gone. */
    var piles: seq<Pile>
    /** Change that did not fit and was dropped. */
    var ground: seq<Pile>

    /** Puts coins into the cylinder, onto piles of their kind first, or on the ground when they are refused. */
    method AddItem(p: Pile, room: bool)
      modifies this
      ensures Total(piles) + Total(ground) == old(Total(piles) + Total(ground)) + p.unit * p.count
      ensures CameIn(old(piles), old(ground), piles, ground, p.unit, p.count)
      ensures Grown(old(piles), piles, p.unit) && Grown(old(ground), ground, p.unit)
      ensures if room then ground == old(ground) else piles == old(piles)
    {
      hide Held, Total;
      if !room {
        Dropped(piles, ground, p);
        ground := ground + [p];
        return;
      }
      var left: nat := p.count;
      var i := 0;
      ghost var n := |piles|;
      while i < |piles| && left > 0
        invariant i <= |piles| == n && left <= p.count
        invariant ground == old(ground)
        invariant Grown(old(piles), piles, p.unit)
        invariant CameIn(old(piles), old(ground), piles, ground, p.unit, p.count - left)
        invariant Total(piles) + p.unit * left == old(Total(piles)) + p.unit * p.count
      {
        if piles[i].unit == p.unit && 0 < piles[i].count < BATCH {
          var moved := if left < BATCH - piles[i].count then left else BATCH - piles[i].count;
          ToppedUp(old(piles), old(ground), piles, i, moved, p.count - left);
          Spread(p.unit, left - moved, moved);
          piles := piles[i := Pile(p.unit, piles[i].count + moved)];
          left := left - moved;
        }
        i := i + 1;
      }
      if left == 0 {
        assert p.unit * left == 0;
      } else {
        Appended(old(piles), old(ground), piles, Pile(p.unit, left), p.count - left);
        piles := piles + [Pile(p.unit, left)];
      }
    }

    /** One round of the loop: a stack comes in, and its count is taken off what is due. */
    method NextRound(unit: nat, due: nat, room: (seq<Pile>, Pile) -> bool) returns (left: nat)
      modifies this
      ensures left == due - NextStack(due)
      ensures Total(piles) + Total(ground) == old(Total(piles) + Total(ground)) + unit * Created(due)
      ensures CameIn(old(piles), old(ground), piles, ground, unit, Created(due))
      ensures Grown(old(piles), piles, unit) && Grown(old(ground), ground, unit)
    {
      var count := NextStack(due);
      var stack := Pile(unit, if count == 0 then 1 else count);
      AddItem(stack, room(piles, stack));
      left := due - count;
    }

    /** Hands out coins of one kind. */
    method AddCoins(unit: nat, coins: nat, room: (seq<Pile>, Pile) -> bool)
      requires coins < HALFWORD
      modifies this
      ensures Total(piles) + Total(ground) == old(Total(piles) + Total(ground)) + unit * coins
      ensures CameIn(old(piles), old(ground), piles, ground, unit, coins)
      ensures Grown(old(piles), piles, unit) && Grown(old(ground), ground, unit)
    {
      var left: nat := coins;
      while left > 0
        invariant left <= coins < HALFWORD
        invariant Total(piles) + Total(ground) + unit * left == old(Total(piles) + Total(ground)) + unit * coins
        invariant CameIn(old(piles), old(ground), piles, ground, unit, coins - left)
        invariant Grown(old(piles), piles, unit) && Grown(old(ground), ground, unit)
      {
        Spread(unit, left - NextStack(left), NextStack(left));
        left := NextRound(unit, left, room);
      }
      assert left == 0;
    }

    /** The same loop, watched for a number of rounds: from 65536 coins on it is never done, and the total grows by
        at least a coin each round. */
    method WatchCoins(unit: nat, coins: nat, rounds: nat, room: (seq<Pile>, Pile) -> bool) returns (left: nat)
      modifies this
      ensures left == Left(coins, rounds)
      ensures Total(piles) + Total(ground) == old(Total(piles) + Total(ground)) + unit * CameOut(coins, rounds)
      ensures coins >= HALFWORD ==>
                left > 0 && Total(piles) + Total(ground) >= old(Total(piles) + Total(ground)) + unit * rounds
    {
      left := coins;
      var k := 0;
      while left > 0 && k < rounds
        invariant k <= rounds && Left(left, rounds - k) == Left(coins, rounds)
        invariant Total(piles) + Total(ground) + unit * CameOut(left, rounds - k)
                    == old(Total(piles) + Total(ground)) + unit * CameOut(coins, rounds)
      {
        Spread(unit, Created(left), CameOut(left - NextStack(left), rounds - k - 1));
        left := NextRound(unit, left, room);
        k := k + 1;
      }
      if left == 0 { NothingDue(rounds - k); }
      assert CameOut(left, rounds - k) == 0;
      assert unit * CameOut(left, rounds - k) == 0;
      if coins >= HALFWORD {
        GrowsForEver(coins, rounds);
        MulMono(rounds, CameOut(coins, rounds), unit);
      }
    }

    /** Hands out an amount in the fewest coins, largest kind first. */
    method AddMoney(money: nat, worths: seq<nat>, room: (seq<Pile>, Pile) -> bool)
      requires Currency(worths) && Payable(money, worths)
      modifies this
      ensures Total(piles) + Total(ground) + Rest(money, worths, |worths|) == old(Total(piles) + Total(ground)) + money
      ensures HandedOut(old(piles), old(ground), piles, ground, money, worths, |worths|)
      ensures Grown(old(piles), piles, money) && Grown(old(ground), ground, money)
    {
      hide Payable, Coins, Held, Total;
      if money == 0 {
        forall n | 0 <= n <= |worths| ensures Rest(0, worths, n) == 0 { NothingOfNothing(worths, n); }
        NoCoins(worths);
        return;
      }
      ghost var a, b := piles, ground;
      var left := money;
      for n := 0 to |worths|
        invariant left == Rest(money, worths, n)
        invariant Total(piles) + Total(ground) + left == old(Total(piles) + Total(ground)) + money
        invariant HandedOut(a, b, piles, ground, money, worths, n)
        invariant Grown(a, piles, money) && Grown(b, ground, money)
      {
        var worth := worths[n];
        var coins := Coins(left, worth);
        ghost var p, g := piles, ground;
        NextRest(money, worths, n);
        if coins > 0 {
          MulMono(1, coins, worth);
          left := left - coins * worth;
          AddCoins(worth, coins, room);
          GrownTwice(a, p, piles, money, worth);
          GrownTwice(b, g, ground, money, worth);
        }
        NextKind(a, b, p, g, piles, ground, money, worths, n);
      }
    }

    /** Pays the rest of an amount from one pile that is worth at least as much, breaking it if it is worth more. */
    method PayLast(i: nat, money: nat, worths: seq<nat>, room: (seq<Pile>, Pile) -> bool)
      requires i < |piles| && Fits(piles[i]) && 0 < money <= Worth(piles[i])
      requires Currency(worths) && 1 in worths && PayableBelow(piles[i].unit, worths)
      modifies this
      ensures Total(piles) + Total(ground) + money == old(Total(piles) + Total(ground))
      ensures SpentFrom(old(piles), piles, i)
    {
      hide Payable, Rest, Total;
      WorthOf(piles[i]);
      ghost var before := piles;
      if Worth(piles[i]) > money {
        var unit := Worth(piles[i]) / piles[i].count;
        Broken(piles[i].unit, piles[i].count, money);
        var removed := RoundedUp(money, unit);
        var change := unit * removed - money;
        assert Payable(change, worths);
        NothingLeft(change, worths);
        AddMoney(change, worths, room);
        assert piles[i] == before[i];
        var rest := Pile(piles[i].unit, piles[i].count - removed);
        Spread(unit, rest.count, removed);
        TotalUpdate(piles, i, rest);
        piles := piles[i := rest];
      } else {
        TotalUpdate(piles, i, Pile(piles[i].unit, 0));
        piles := piles[i := Pile(piles[i].unit, 0)];
      }
    }

    /** Takes an amount out of the piles; reports whether there is enough. */
    method RemoveMoney(money: nat, worths: seq<nat>, room: (seq<Pile>, Pile) -> bool) returns (ok: bool)
      requires forall p <- piles :: Fits(p)
      requires Currency(worths) && 1 in worths
      requires Changeable(piles, worths)
      modifies this
      ensures ok <==> money <= old(Total(piles))
      ensures ok ==> Total(piles) + Total(ground) == old(Total(piles) + Total(ground)) - money
      ensures ok ==> SmallestFirst(old(piles), piles)
      ensures !ok ==> unchanged(this)
    {
      hide Worth, Fits, Before, PayableBelow, Currency, Changeable;
      if money == 0 { return true; }
      var order, count := SortPiles(piles);
      if count < money { return false; }
      ok := true;
      var left := money;
      var k := 0;
      ghost var before := piles;
      while true
        invariant k <= |order| && Taken(before, piles, order, k)
        invariant ground == old(ground)
        invariant Total(piles) + money == Total(before) + left
        invariant 0 < left <= WorthAt(before, order[k..])
        decreases |order| - k
      {
        assert k < |order|;
        var i := order[k];
        assert order[k..][1..] == order[k + 1..];
        NotYetTaken(before, piles, order, k);
        WorthOf(before[i]);
        if Worth(piles[i]) < left {
          left := left - Worth(piles[i]);
          TotalUpdate(piles, i, Pile(piles[i].unit, 0));
          TakenNext(before, piles, order, k);
          piles := piles[i := Pile(piles[i].unit, 0)];
          k := k + 1;
        } else {
          ghost var now := piles;
          ChangeFor(before, i, worths);
          PayLast(i, left, worths, room);
          OrderKept(before, now, piles, order, k);
          return;
        }
      }
    }
  }

  /** Any change that breaking one of the piles can call for can be handed out. */
  ghost predicate Changeable(piles: seq<Pile>, worths: seq<nat>)
    requires Currency(worths)
  {
    forall p <- piles | p.count > 0 :: PayableBelow(p.unit, worths)
  }

  lemma ChangeFor(piles: seq<Pile>, i: nat, worths: seq<nat>)
    requires Currency(worths) && Changeable(piles, worths) && i < |piles| && Worth(piles[i]) > 0
    ensures PayableBelow(piles[i].unit, worths)
  {
    hide PayableBelow;
    assert piles[i] in piles;
  }

  /** One pile got smaller; no pile that was gone came back and no other pile lost a coin. */
  ghost predicate SpentFrom(before: seq<Pile>, after: seq<Pile>, i: nat) {
    i < |before| <= |after| && after[i].count < before[i].count &&
    forall j | 0 <= j < |before| && j != i ::
      before[j].count <= after[j].count && (before[j].count == 0 ==> after[j].count == 0)
  }

  /** A pile loses coins only when every pile before it in the order of spending is gone: at most one is broken. */
  ghost predicate SmallestFirst(before: seq<Pile>, after: seq<Pile>) {
    |before| <= |after| &&
    forall i, j | 0 <= i < |before| && 0 <= j < |before| ::
      after[i].count < before[i].count && Worth(before[j]) != 0 && after[j].count > 0 && i != j ==> Before(before, i, j)
  }

  /** The first k piles of the order are gone, the others as before. */
  ghost predicate Taken(before: seq<Pile>, after: seq<Pile>, order: seq<nat>, k: nat) {
    k <= |order| && Ascending(before, order, |before|) && |after| == |before| &&
    (forall j | 0 <= j < k :: after[order[j]].count == 0) &&
    forall i | 0 <= i < |before| && i !in order[..k] :: after[i] == before[i]
  }

  lemma NotYetTaken(before: seq<Pile>, after: seq<Pile>, order: seq<nat>, k: nat)
    requires Taken(before, after, order, k) && k < |order|
    ensures after[order[k]] == before[order[k]]
  {
    hide Worth;
    forall j | 0 <= j < k ensures order[..k][j] != order[k] {
      assert Before(before, order[j], order[k]);
    }
  }

  lemma TakenNext(before: seq<Pile>, after: seq<Pile>, order: seq<nat>, k: nat)
    requires Taken(before, after, order, k) && k < |order|
    ensures Taken(before, after[order[k] := Pile(after[order[k]].unit, 0)], order, k + 1)
  {
    hide Worth, Ascending;
    assert InRange(order, |before|) by { InOrder(before, order); }
    assert order[..k + 1] == order[..k] + [order[k]];
  }

  lemma InOrder(s: seq<Pile>, order: seq<nat>)
    requires Ascending(s, order, |s|)
    ensures InRange(order, |s|)
  {
  }

  lemma OrderKept(before: seq<Pile>, now: seq<Pile>, after: seq<Pile>, order: seq<nat>, k: nat)
    requires Taken(before, now, order, k) && k < |order|
    requires SpentFrom(now, after, order[k])
    ensures SmallestFirst(before, after)
  {
    hide Worth;
    NotYetTaken(before, now, order, k);
    forall i, j | 0 <= i < |before| && 0 <= j < |before| && after[i].count < before[i].count &&
                  Worth(before[j]) != 0 && after[j].count > 0 && i != j
      ensures Before(before, i, j)
    {
      var a := Place(before, now, order, k, i);
      assert j in order;
      var b :| 0 <= b < |order| && order[b] == j;
      assert b >= k;
      assert a < b;
    }
  }

  /** A pile that is smaller now or is being broken stands among the first k + 1 of the order. */
  lemma Place(before: seq<Pile>, now: seq<Pile>, order: seq<nat>, k: nat, i: nat) returns (a: nat)
    requires Taken(before, now, order, k) && k < |order| && i < |before|
    requires i == order[k] || now[i] != before[i]
    ensures a <= k && order[a] == i
  {
    hide Worth, Ascending;
    if i == order[k] {
      a := k;
    } else {
      assert i in order[..k];
      a :| 0 <= a < k && order[..k][a] == i;
    }
  }

  /** The quotient in double precision, rounded up. */
  function RoundedUp(money: nat, unit: nat): (n: nat)
    requires 0 < money < WORD && unit > 0
    ensures n == (money + unit - 1) / unit
  {
    FloatingPoint.CeilingIsExact(money, unit);
    FloatingPoint.Ceiling(FloatingPoint.Round(money as real / unit as real, FloatingPoint.DOUBLE))
  }

  /** Breaking a pile: the coins taken cover the amount, are not more than there are, and the change is below one coin. */
  lemma Broken(unit: nat, count: nat, money: nat)
    requires 0 < money < unit * count
    ensures unit > 0 && count > 0 && (unit * count) / count == unit
    ensures var removed := (money + unit - 1) / unit; 0 < removed <= count && 0 <= unit * removed - money < unit
  {
    ModUnique(unit * count, count, unit, 0);
    var removed := (money + unit - 1) / unit;
    assert unit * removed <= money + unit - 1 < unit * removed + unit;
    Spread(unit, count, 1);
    Below(unit, removed, count + 1);
    assert removed == 0 ==> unit * removed == 0;
  }

  lemma Below(unit: nat, a: nat, b: nat)
    requires unit * a < unit * b
    ensures a < b
  {
    if b <= a { MulMono(b, a, unit); }
  }

  /** Of the first n kinds as many coins have come in as the greedy split says, and none of the others. */
  ghost predicate HandedOut(a: seq<Pile>, b: seq<Pile>, a': seq<Pile>, b': seq<Pile>,
                            money: nat, worths: seq<nat>, n: nat)
    requires forall i | 0 <= i < |worths| :: worths[i] > 0
  {
    forall i | 0 <= i < |worths| :: Held(a', worths[i]) + Held(b', worths[i]) ==
      Held(a, worths[i]) + Held(b, worths[i]) + if i < n then Coins(Rest(money, worths, i), worths[i]) else 0
  }

  lemma NextKind(a: seq<Pile>, b: seq<Pile>, p: seq<Pile>, g: seq<Pile>, a': seq<Pile>, b': seq<Pile>,
                 money: nat, worths: seq<nat>, n: nat)
    requires Currency(worths) && n < |worths|
    requires HandedOut(a, b, p, g, money, worths, n)
    requires CameIn(p, g, a', b', worths[n], Coins(Rest(money, worths, n), worths[n]))
    ensures HandedOut(a, b, a', b', money, worths, n + 1)
  {
    hide Held, Rest, Coins;
  }

  lemma NextRest(money: nat, worths: seq<nat>, n: nat)
    requires Currency(worths) && Payable(money, worths) && n < |worths|
    ensures var left, w := Rest(money, worths, n), worths[n];
            Coins(left, w) < HALFWORD && Coins(left, w) * w <= left &&
            Rest(money, worths, n + 1) == left - Coins(left, w) * w
  {
    QuotientFits(Rest(money, worths, n), worths[n]);
  }

  lemma NoCoins(worths: seq<nat>)
    requires forall i | 0 <= i < |worths| :: worths[i] > 0
    ensures forall i | 0 <= i < |worths| :: Coins(0, worths[i]) == 0
  {
  }

  lemma Spread(unit: nat, a: nat, b: nat)
    ensures unit * (a + b) == unit * a + unit * b
  {
  }

  lemma {:induction false} NothingOfNothing(worths: seq<nat>, n: nat)
    requires n <= |worths| && forall i | 0 <= i < |worths| :: worths[i] > 0
    ensures Rest(0, worths, n) == 0
  {
  }

  lemma GrownTwice(a: seq<Pile>, b: seq<Pile>, c: seq<Pile>, money: nat, worth: nat)
    requires Grown(a, b, money) && Grown(b, c, worth) && worth <= money
    ensures Grown(a, c, money)
  {
  }
}
