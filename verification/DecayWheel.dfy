/** The timing wheel that lets items decay: four lists, one visited every 250 milliseconds. */
module DecayWheel {

  import opened Basics

  const INTERVAL := 250
  const BUCKETS := 4
  const SPAN := 1000
  const HALF := 125

  // ---------------------------------------------------------------------
  // When an entry leaves
  // ---------------------------------------------------------------------

  /** How many ticks an entry still has, when its list is visited in off + 1 ticks. */
  function Ticks(off: nat, duration: nat): (n: nat)
    ensures n > off
    decreases duration
  {
    if duration <= SPAN then off + 1
    else if duration - SPAN >= SPAN then off + 1 + Ticks(BUCKETS - 1, duration - SPAN)
    else off + 1 + (duration - SPAN + HALF) / SPAN
  }

  /** The list an item is put on: the one visited last for a second or more, the next one otherwise. */
  function EntryOffset(duration: nat): nat {
    if duration >= SPAN then BUCKETS - 1 else 0
  }

  /** The tick, counted from the moment of entry, in which an item of a given duration decays. */
  function Lifetime(duration: nat): nat {
    if duration < SPAN then 1
    else BUCKETS * (duration / SPAN) + if duration % SPAN >= SPAN - HALF then 1 else 0
  }

  lemma {:induction false} EntryTicks(duration: nat)
    requires duration > 0
    ensures Ticks(EntryOffset(duration), duration) == Lifetime(duration)
  {
    var q, r := duration / SPAN, duration % SPAN;
    assert (duration - SPAN) % SPAN == r && (q > 0 ==> (duration - SPAN) / SPAN == q - 1);
    if duration >= 2 * SPAN {
      EntryTicks(duration - SPAN);
    } else if duration >= SPAN {
      assert (duration - SPAN + HALF) / SPAN == if duration - SPAN >= SPAN - HALF then 1 else 0;
    }
  }

  /** An item is never late by a whole tick and never early by seven eighths of a second. */
  lemma LifetimeIsClose(duration: nat)
    requires duration > 0
    ensures INTERVAL * Lifetime(duration) <= if duration > INTERVAL then duration else INTERVAL
    ensures duration - INTERVAL * Lifetime(duration) < SPAN - HALF
  {
    if duration >= SPAN {
      assert duration == SPAN * (duration / SPAN) + duration % SPAN;
    }
  }

  lemma TicksShift(off: nat, duration: nat)
    ensures Ticks(off + 1, duration) == Ticks(off, duration) + 1
  {
  }

  /** How many lists ahead of the one visited last a list is; it is visited one tick after that many. */
  function Offset(bucket: nat, last: nat): (off: nat)
    requires bucket < BUCKETS && last < BUCKETS
    ensures off < BUCKETS
    ensures (last + 1 + off) % BUCKETS == bucket
  {
    (bucket + BUCKETS - last - 1) % BUCKETS
  }

  /** The list after the one visited last is the one to be visited; the others come one list closer. */
  lemma OffsetNext(bucket: nat, last: nat)
    requires bucket < BUCKETS && last < BUCKETS
    ensures var next := (last + 1) % BUCKETS;
            if bucket == next then Offset(bucket, last) == 0 && Offset(bucket, next) == BUCKETS - 1
            else Offset(bucket, last) == Offset(bucket, next) + 1
  {
  }

  // ---------------------------------------------------------------------
  // Items and the wheel
  // ---------------------------------------------------------------------

  datatype Decaying = No | Yes | Pending

  /** Where the wheel keeps an item. */
  datatype Place = Out | Waiting | In(bucket: nat)

  lemma RightList(duration: nat, last: nat)
    requires duration > 0 && last < BUCKETS
    ensures var bucket := if duration >= SPAN then last else (last + 1 + duration / SPAN) % BUCKETS;
            bucket < BUCKETS && Ticks(Offset(bucket, last), duration) == Lifetime(duration)
  {
    EntryTicks(duration);
  }

  class Item {
    var duration: nat
    var decaying: Decaying
    /** What the type, the unique id and the place in the world say about decaying. */
    var canDecay: bool
    var decayTo: int
    var references: int
    /** References that are no business of the wheel's. */
    ghost var held: int
    /** References of entries taken off a list and not yet put on the list of releases. */
    ghost var taken: nat
    ghost var place: Place
    /** Whether the books have an entry of it that has not ended. */
    ghost var open: bool
    /** The tick in which an item in the wheel is to decay. */
    ghost var due: nat

    constructor (duration: nat, canDecay: bool, decayTo: int)
      ensures this.duration == duration && this.canDecay == canDecay && this.decayTo == decayTo && decaying == No
      ensures references == held == 1 && taken == 0 && place == Out && !open
    {
      this.duration, this.canDecay, this.decayTo, decaying := duration, canDecay, decayTo, No;
      references, held, taken, place, open, due := 1, 1, 0, Out, false, 0;
    }
  }

  /** What becomes of a decayed item: it is left as it is, it takes on another type, or another item takes its place. */
  datatype Outcome =
    | Left
    | Same(duration: nat, canDecay: bool, decayTo: int)
    | Another(duration: nat, canDecay: bool, decayTo: int)

  /** The type of an item's successor decides what becomes of it; `removable` whether an item without one can be taken away. */
  datatype World = World(become: nat -> Outcome, removable: bool)

  /** No chain of items that decay at once goes on forever. */
  ghost predicate Settles(world: World, rank: int -> nat) {
    forall t: nat | t > 0 && !world.become(t).Left? ::
      var o := world.become(t);
      o.canDecay && o.duration == 0 ==> rank(o.decayTo) < rank(t)
  }

  predicate NoDup<T(==)>(s: seq<T>) {
    forall i, j | 0 <= i < j < |s| :: s[i] != s[j]
  }

  lemma NoDupSnoc<T>(s: seq<T>, x: T)
    requires NoDup(s) && x !in s
    ensures NoDup(s + [x])
  {
  }

  lemma NoDupTail<T>(s: seq<T>)
    requires NoDup(s) && s != []
    ensures NoDup(s[1..]) && s[0] !in s[1..] && forall x :: x in s <==> x == s[0] || x in s[1..]
  {
    assert s == [s[0]] + s[1..];
  }

  lemma NoDupWithout<T>(s: seq<T>, k: nat)
    requires NoDup(s) && k < |s|
    ensures NoDup(Without(s, k)) && s[k] !in Without(s, k)
    ensures forall x :: x in s <==> x == s[k] || x in Without(s, k)
  {
    assert s == s[..k] + [s[k]] + s[k + 1..];
  }

  lemma NextList(bucket: nat, left: nat)
    requires bucket < BUCKETS && SPAN - HALF <= left < SPAN
    ensures var next := (bucket + (left + HALF) / SPAN) % BUCKETS;
            next < BUCKETS && next != bucket && Ticks(0, left + SPAN) == 1 + Ticks(Offset(next, bucket), left)
  {
    assert (left + HALF) / SPAN == 1;
  }

  /** The rest of a second is counted as a tick from seven eighths on, and not at all below. */
  lemma LastBit(bucket: nat, left: nat)
    requires bucket < BUCKETS && 0 < left < SPAN
    ensures (bucket + (left + HALF) / SPAN) % BUCKETS == bucket <==> left < SPAN - HALF
    ensures Ticks(0, left + SPAN) == 1 <==> left < SPAN - HALF
  {
  }

  /** A stay in the wheel: whose it is and the tick in which it is to end. */
  datatype Entry = Entry(item: Item, due: nat)

  class Wheel {
    var decayItems: seq<seq<Item>>
    var lastBucket: nat
    var toDecayItems: seq<Item>
    var toRelease: seq<Item>
    ghost var items: set<Item>
    ghost var tick: nat
    /** Every entry ever made, those that ended in decay, and those that ended because the item could no longer decay. */
    ghost var entered: multiset<Entry>
    ghost var decayed: multiset<Entry>
    ghost var dropped: multiset<Entry>

    /** Every item is on at most one list, at most once, and knows which. */
    ghost predicate Lists()
      reads `decayItems, `toDecayItems, `items
      reads items`place, items`decaying, items`duration
    {
      |decayItems| == BUCKETS &&
      (forall b | 0 <= b < BUCKETS :: NoDup(decayItems[b])) &&
      NoDup(toDecayItems) &&
      (forall b | 0 <= b < BUCKETS :: forall x <- decayItems[b] :: x in items && x.place == In(b)) &&
      (forall x <- toDecayItems :: x in items && x.place == Waiting) &&
      forall x <- items ::
        match x.place
        case Out => true
        case Waiting => x in toDecayItems && x.decaying == Yes && x.duration > 0
        case In(b) => b < BUCKETS && x in decayItems[b] && x.decaying == Yes && x.duration > 0
    }

    /** Every reference is accounted for: one for each entry, one for each release still to come. */
    ghost predicate Ledger()
      reads `toRelease, `items, items`references, items`held, items`taken, items`place
    {
      (forall x <- toRelease :: x in items) &&
      forall x <- items ::
        x.references == x.held + (if x.place.Out? then 0 else 1) + x.taken + multiset(toRelease)[x]
    }

    /** Every entry is open or has ended exactly once, and none has ended in decay after `now`. */
    ghost predicate Books(now: nat)
      reads `items, `entered, `decayed, `dropped, items`open, items`due
    {
      (forall x, d: nat | x in items ::
        entered[Entry(x, d)] == decayed[Entry(x, d)] + dropped[Entry(x, d)] + if x.open && x.due == d then 1 else 0) &&
      (forall e <- entered + decayed + dropped :: e.item in items) &&
      forall e <- decayed :: e.due <= now
    }

    /** The open entries are the items in the wheel, and no reference is in passing. */
    ghost predicate Settled()
      reads `items, items`taken, items`open, items`place
    {
      forall x <- items :: x.taken == 0 && (x.open <==> x.place.In?)
    }

    /** Every entry leaves in the tick that was fixed when it came in. */
    ghost predicate Timely()
      reads `lastBucket, `tick, `items, items`place, items`duration, items`due
    {
      TimelyFor(lastBucket, tick)
    }

    /** The same, seen from a tick after which a list is the one visited last. */
    ghost predicate TimelyFor(last: nat, now: nat)
      reads `items, items`place, items`duration, items`due
    {
      last < BUCKETS &&
      forall x <- items | x.place.In? && x.place.bucket < BUCKETS :: x.due == now + Ticks(Offset(x.place.bucket, last), x.duration)
    }

    ghost predicate SettledBut(x: Item)
      reads `items, (items - {x})`taken, (items - {x})`open, (items - {x})`place
    {
      forall y <- items | y != x :: y.taken == 0 && (y.open <==> y.place.In?)
    }

    lemma AllSettled(x: Item)
      requires SettledBut(x) && x.taken == 0 && (x.open <==> x.place.In?)
      ensures Settled()
    {
    }

    ghost predicate Valid()
      reads this, items
    {
      Lists() && Ledger() && Timely() && Books(tick) && Settled()
    }

    /**
     * Over every run: unless it was dropped, an entry has ended in decay exactly if its tick has come, and not before.
     */
    lemma DecaysOnTime(e: Entry)
      requires Valid() && e.item in items && dropped[e] == 0
      ensures decayed[e] == if e.due <= tick then entered[e] else 0
      ensures e.due > tick ==> entered[e] <= 1
    {
      hide Ticks;
    }

    constructor ()
      ensures Valid() && items == {} && tick == 0 && entered == multiset{}
    {
      decayItems := [[], [], [], []];
      lastBucket, toDecayItems, toRelease := 0, [], [];
      items, tick, entered, decayed, dropped := {}, 0, multiset{}, multiset{}, multiset{};
    }

    /** Takes a reference and puts the item where the next cleanup finds it. */
    method Enqueue(x: Item)
      requires Lists() && Ledger() && x in items && x.place == Out && x.duration > 0
      modifies `toDecayItems, x`references, x`decaying, x`place
      ensures Lists() && Ledger() && x.place == Waiting && x.decaying == Yes && x.references == old(x.references) + 1
      ensures toDecayItems == [x] + old(toDecayItems)
    {
      x.references := x.references + 1;
      x.decaying := Yes;
      x.place := Waiting;
      toDecayItems := [x] + toDecayItems;
    }

    /** Remembers that a reference is to be given up: one the wheel has taken off a list, or one of the world's. */
    method ReleaseItem(x: Item, ghost ours: bool)
      requires Lists() && Ledger() && x in items && (ours ==> x.taken > 0)
      modifies `toRelease, x`held, x`taken
      ensures Lists() && Ledger()
      ensures if ours then x.taken == old(x.taken) - 1 && x.held == old(x.held)
              else x.taken == old(x.taken) && x.held == old(x.held) - 1
      ensures toRelease == old(toRelease) + [x]
    {
      toRelease := toRelease + [x];
      if ours {
        x.taken := x.taken - 1;
      } else {
        x.held := x.held - 1;
      }
    }

    /** The successor has come: the item itself or another one, and with time to live it waits to be entered. */
    ghost predicate Succeeded(waiting: seq<Item>, were: set<Item>, x: Item, o: Outcome)
      reads `toDecayItems, `items, x, items
    {
      match o
      case Left => true
      case Same(duration, canDecay, decayTo) =>
        duration > 0 ==> x.duration == duration && x.canDecay == canDecay && x.decayTo == decayTo &&
                         toDecayItems == if canDecay then [x] + waiting else waiting
      case Another(duration, canDecay, decayTo) =>
        !x.canDecay &&
        (duration > 0 ==>
          toDecayItems != [] && toDecayItems[1..] == waiting && toDecayItems[0] in items &&
          var y := toDecayItems[0];
          y !in were && items == were + {y} && y.duration == duration && y.canDecay == canDecay && y.decayTo == decayTo)
    }

    /** An item begins to decay: it is entered, or, having no time left, decays at once. This may come between two
        ticks or out of the decay of another item. */
    method Begin(x: Item, world: World, ghost rank: int -> nat)
      requires Lists() && Ledger() && x in items && Settles(world, rank)
      modifies `toDecayItems, `toRelease, `items, x
      ensures Lists() && Ledger() && Grown(old(items)) && fresh(items - old(items))
      ensures x.taken == old(x.taken) && x.open == old(x.open) && x.due == old(x.due)
      ensures x.place == old(x.place) || (old(x.place).Out? && x.place.Waiting?)
      ensures x.place.In? ==> x.duration == old(x.duration)
      ensures old(!x.canDecay || x.decaying == Yes) ==> unchanged(this) && unchanged(x)
      ensures old(x.canDecay && x.decaying != Yes && x.duration > 0) ==>
                && toDecayItems == [x] + old(toDecayItems) && toRelease == old(toRelease) && items == old(items)
                && x.place.Waiting? && x.references == old(x.references) + 1
                && x.duration == old(x.duration) && x.canDecay && x.decayTo == old(x.decayTo)
      ensures old(x.canDecay && x.decaying != Yes && x.duration == 0 && x.decayTo <= 0) && world.removable ==>
                !x.canDecay && toRelease == old(toRelease) + [x]
      decreases if x.canDecay && x.duration == 0 then 4 * rank(x.decayTo) + 3 else 0
    {
      if !x.canDecay { return; }
      if x.decaying == Yes { return; }
      if x.duration > 0 {
        Enqueue(x);
      } else {
        InternalDecayItem(x, world, rank);
      }
    }

    /** Between two ticks an item begins to decay. */
    method StartDecay(x: Item, world: World, ghost rank: int -> nat)
      requires Valid() && x in items && Settles(world, rank)
      modifies `toDecayItems, `toRelease, `items, x
      ensures Valid() && Grown(old(items)) && fresh(items - old(items))
      ensures old(!x.canDecay || x.decaying == Yes) ==> unchanged(this) && unchanged(x)
      ensures old(x.canDecay && x.decaying != Yes && x.duration > 0) ==>
                && toDecayItems == [x] + old(toDecayItems) && toRelease == old(toRelease) && items == old(items)
                && x.place.Waiting? && x.references == old(x.references) + 1 && x.duration == old(x.duration)
      ensures old(x.canDecay && x.decaying != Yes && x.duration == 0 && x.decayTo <= 0) && world.removable ==>
                !x.canDecay && toRelease == old(toRelease) + [x]
    {
      hide Lists, Ledger, Settles, Ticks, Offset;
      Begin(x, world, rank);
    }

    /** An item's time is up: it turns into its successor, which may decay in turn, or it is taken away. */
    method InternalDecayItem(x: Item, world: World, ghost rank: int -> nat)
      requires Lists() && Ledger() && x in items && x.place == Out && Settles(world, rank)
      modifies `toDecayItems, `toRelease, `items, x
      ensures Lists() && Ledger() && Grown(old(items)) && fresh(items - old(items))
      ensures x.taken == old(x.taken) && x.open == old(x.open) && x.due == old(x.due) && !x.place.In?
      ensures old(x.decayTo) <= 0 && world.removable ==> !x.canDecay && toRelease == old(toRelease) + [x]
      ensures (if old(x.decayTo) > 0 then world.become(old(x.decayTo)).Left? else !world.removable) ==>
                unchanged(this) && unchanged(x)
      ensures old(x.decayTo) > 0 ==> Succeeded(old(toDecayItems), old(items), x, world.become(old(x.decayTo)))
      decreases 4 * rank(x.decayTo) + 2
    {
      hide Lists, Ledger, Settles;
      if x.decayTo > 0 {
        match world.become(x.decayTo)
        case Left => Nothing(x);
        case Same(_, _, _) => BecomeSame(x, x.decayTo, world, rank);
        case Another(_, _, _) => BecomeAnother(x, x.decayTo, world, rank);
      } else if world.removable {
        LetGo(x);
        Nothing(x);
      } else {
        Nothing(x);
      }
    }

    /** Every item that was there still is; the new ones are not in the wheel. */
    ghost predicate Grown(were: set<Item>)
      reads `items, items`place, items`taken, items`open
    {
      were <= items && forall y <- items - were :: !y.place.In? && y.taken == 0 && !y.open
    }

    lemma Nothing(x: Item)
      requires Lists()
      ensures Grown(items) && (x in items && x.duration == 0 ==> x.place.Out?)
    {
    }

    /** The item takes on the type it decays to and may begin to decay again. */
    method BecomeSame(x: Item, t: nat, world: World, ghost rank: int -> nat)
      requires Lists() && Ledger() && x in items && x.place == Out && Settles(world, rank)
      requires t > 0 && world.become(t).Same?
      modifies `toDecayItems, `toRelease, `items, x
      ensures Lists() && Ledger() && Grown(old(items)) && fresh(items - old(items))
      ensures x.taken == old(x.taken) && x.open == old(x.open) && x.due == old(x.due) && !x.place.In?
      ensures Succeeded(old(toDecayItems), old(items), x, world.become(t))
      decreases 4 * rank(t) + 1
    {
      var o := world.become(t);
      assert o.canDecay && o.duration == 0 ==> rank(o.decayTo) < rank(t);
      hide Lists, Ledger, Settles;
      TakeOn(x, o.duration, o.canDecay, o.decayTo);
      Begin(x, world, rank);
    }

    /** Another item takes the item's place and may begin to decay. */
    method BecomeAnother(x: Item, t: nat, world: World, ghost rank: int -> nat)
      requires Lists() && Ledger() && x in items && x.place == Out && Settles(world, rank)
      requires t > 0 && world.become(t).Another?
      modifies `toDecayItems, `toRelease, `items, x`canDecay, x`held, x`taken
      ensures Lists() && Ledger() && Grown(old(items)) && fresh(items - old(items))
      ensures x.taken == old(x.taken)
      ensures Succeeded(old(toDecayItems), old(items), x, world.become(t))
      decreases 4 * rank(t) + 1
    {
      var o := world.become(t);
      assert o.canDecay && o.duration == 0 ==> rank(o.decayTo) < rank(t);
      hide Lists, Ledger, Settles, Grown;
      ghost var were := items;
      var y := Supersede(x, o.duration, o.canDecay, o.decayTo);
      Begin(y, world, rank);
      GrownBy(were, y);
    }

    lemma GrownBy(were: set<Item>, y: Item)
      requires Grown(were + {y}) && !y.place.In? && y.taken == 0 && !y.open
      ensures Grown(were) && y in items
    {
    }

    /** The world gives up its reference to an item. */
    method LetGo(x: Item)
      requires Lists() && Ledger() && x in items
      modifies `toRelease, x`canDecay, x`held, x`taken
      ensures Lists() && Ledger() && !x.canDecay && x.taken == old(x.taken) && toRelease == old(toRelease) + [x]
      ensures old(Valid()) ==> Valid()
    {
      hide Lists, Ledger;
      x.canDecay := false;
      ReleaseItem(x, false);
    }

    /** The item takes on another type in place. */
    method TakeOn(x: Item, duration: nat, canDecay: bool, decayTo: int)
      requires Lists() && Ledger() && x in items && x.place == Out
      modifies x`canDecay, x`decayTo, x`decaying, x`duration
      ensures Lists() && Ledger() && x.canDecay == canDecay && x.decayTo == decayTo
      ensures x.canDecay && x.duration == 0 ==> duration == 0
      ensures duration > 0 ==> x.duration == duration && x.decaying == No
    {
      x.canDecay, x.decayTo := canDecay, decayTo;
      if duration > 0 {
        x.decaying, x.duration := No, duration;
      } else if decayTo < 0 {
        x.decaying, x.duration := No, 0;
      }
    }

    /** Another item takes the item's place in the world; with time to live it is entered at once. */
    method Supersede(x: Item, duration: nat, canDecay: bool, decayTo: int) returns (y: Item)
      requires Lists() && Ledger() && x in items && x.place == Out
      modifies `toDecayItems, `toRelease, `items, x`canDecay, x`held, x`taken
      ensures Lists() && Ledger() && fresh(y) && items == old(items) + {y}
      ensures y.canDecay == canDecay && y.decayTo == decayTo && y.duration == duration && y.taken == 0 && !y.open
      ensures y.place == (if duration > 0 then Waiting else Out) && y.decaying == (if duration > 0 then Yes else No)
      ensures toDecayItems == if duration > 0 then [y] + old(toDecayItems) else old(toDecayItems)
      ensures x.taken == old(x.taken) && !x.canDecay
    {
      hide Lists, Ledger;
      y := new Item(duration, canDecay, decayTo);
      Admit(y);
      LetGo(x);
      if duration > 0 {
        Enqueue(y);
      }
    }

    /** A new item has come into the world. */
    ghost method Admit(y: Item)
      requires Lists() && Ledger() && y !in items && y.place == Out && y.references == y.held && y.taken == 0 && !y.open
      modifies `items
      ensures Lists() && Ledger() && items == old(items) + {y}
    {
      ReleaseFacts();
      items := items + {y};
    }

    // -------------------------------------------------------------------
    // Cleanup
    // -------------------------------------------------------------------

    lemma ReleaseFacts()
      requires Ledger()
      ensures forall x <- toRelease :: x in items
    {
    }

    /** Gives up the references that were to be given up. */
    method ReleaseAll()
      requires Lists() && Ledger()
      modifies `toRelease, items`references
      ensures Lists() && Ledger() && toRelease == []
      ensures forall x <- items :: x.references == old(x.references) - old(multiset(toRelease)[x])
    {
      ReleaseFacts();
      hide Lists;
      ghost var all := toRelease;
      var k := 0;
      while k < |toRelease|
        invariant k <= |toRelease| && toRelease == all && Lists()
        invariant forall x <- items ::
          x.references == x.held + (if x.place.Out? then 0 else 1) + x.taken + multiset(toRelease[k..])[x]
      {
        var x := toRelease[k];
        assert toRelease[k..] == [x] + toRelease[k + 1..];
        x.references := x.references - 1;
        k := k + 1;
      }
      toRelease := [];
      assert all[k..] == [];
    }

    /** Puts the first waiting item on the list from which it will leave in time. */
    method FlushOne(x: Item)
      requires Valid() && toDecayItems != [] && x == toDecayItems[0]
      modifies `decayItems, `toDecayItems, `entered, x`place, x`due, x`open
      ensures Valid() && toDecayItems == old(toDecayItems)[1..]
      ensures x.place.In? && x.due == tick + Lifetime(x.duration)
      ensures entered == old(entered) + multiset{Entry(x, x.due)}
    {
      FlushBegins(x);
      hide Lifetime, Valid, Flushing;
      Book(x, tick + Lifetime(x.duration));
      Land(x);
      FlushEnds(x);
    }

    /** Everything that holds while an item is on its way from the waiting ones to its list. */
    ghost predicate Flushing(x: Item)
      reads this, items
    {
      Lists() && Ledger() && Timely() && Books(tick) && SettledBut(x) && x in items && x.taken == 0
    }

    lemma FlushBegins(x: Item)
      requires Valid() && x in toDecayItems
      ensures Flushing(x) && x.place.Waiting? && !x.open && x.duration > 0
    {
      hide Ticks, Offset, Ledger, Books, TimelyFor, NoDup;
      AllBut(x);
    }

    lemma FlushEnds(x: Item)
      requires Flushing(x) && x.place.In? && x.open
      ensures Valid()
    {
      hide Lists, Ledger, Books, TimelyFor;
      AllSettled(x);
    }

    /** An entry is opened. */
    ghost method Book(x: Item, due: nat)
      requires Flushing(x) && !x.open && x.place.Waiting?
      modifies `entered, x`due, x`open
      ensures Flushing(x) && x.open && x.due == due && entered == old(entered) + multiset{Entry(x, due)}
    {
      hide Lists, Ledger, Ticks, Offset;
      x.due := due;
      x.open := true;
      entered := entered + multiset{Entry(x, due)};
    }

    /** The item is put on the list where it is due when it was booked. */
    method Land(x: Item)
      requires Flushing(x) && toDecayItems != [] && x == toDecayItems[0]
      requires x.due == tick + Lifetime(x.duration) && x.duration > 0
      modifies `decayItems, `toDecayItems, x`place
      ensures Flushing(x) && x.place.In? && toDecayItems == old(toDecayItems)[1..]
    {
      hide Lists, Ledger, Books, SettledBut, Timely, Lifetime;
      LandInTime(x);
    }

    method LandInTime(x: Item)
      requires Lists() && Ledger() && Timely() && toDecayItems != [] && x == toDecayItems[0]
      requires x.due == tick + Lifetime(x.duration) && x.duration > 0
      modifies `decayItems, `toDecayItems, x`place
      ensures Lists() && Ledger() && Timely() && x.place.In? && toDecayItems == old(toDecayItems)[1..]
    {
      var bucket := if x.duration >= SPAN then lastBucket else (lastBucket + 1 + x.duration / SPAN) % BUCKETS;
      RightList(x.duration, lastBucket);
      hide Lists, Ledger, Ticks, Offset, Lifetime;
      PutOn(x, bucket);
    }

    /** Moves the first waiting item to the end of a list. */
    method PutOn(x: Item, bucket: nat)
      requires Lists() && Ledger() && toDecayItems != [] && x == toDecayItems[0] && bucket < BUCKETS
      modifies `decayItems, `toDecayItems, x`place
      ensures Lists() && Ledger() && x.place == In(bucket) && toDecayItems == old(toDecayItems)[1..]
    {
      NoDupTail(toDecayItems);
      NoDupSnoc(decayItems[bucket], x);
      hide NoDup;
      x.place := In(bucket);
      decayItems := decayItems[bucket := decayItems[bucket] + [x]];
      toDecayItems := toDecayItems[1..];
    }

    /** Gives up references and enters the waiting items into the wheel. */
    method Cleanup()
      requires Valid()
      modifies `decayItems, `toDecayItems, `toRelease, `entered, items`references, items`place, items`due, items`open
      ensures Valid() && toRelease == [] && toDecayItems == []
      ensures forall x <- items :: x.references == old(x.references) - old(multiset(toRelease)[x])
      ensures forall x <- old(toDecayItems) :: x.place.In? && x.due == tick + Lifetime(x.duration)
      ensures forall x <- items | !old(x.place.Waiting?) :: x.place == old(x.place) && x.due == old(x.due)
      ensures old(entered) <= entered
    {
      hide Ledger, Ticks, Lifetime, NoDup, Timely, Books;
      ReleaseAll();
      ghost var waiting := toDecayItems;
      ghost var k := 0;
      while toDecayItems != []
        invariant Valid() && toRelease == [] && k <= |waiting| && toDecayItems == waiting[k..]
        invariant old(entered) <= entered
        invariant forall x <- items :: x.references == old(x.references) - old(multiset(toRelease)[x])
        invariant forall x <- waiting[..k] :: x.place.In? && x.due == tick + Lifetime(x.duration)
        invariant forall x <- items | !old(x.place.Waiting?) :: x.place == old(x.place) && x.due == old(x.due)
        decreases |waiting| - k
      {
        assert waiting[..k + 1] == waiting[..k] + [waiting[k]];
        assert waiting[k] == toDecayItems[0];
        FlushOne(toDecayItems[0]);
        k := k + 1;
      }
      assert waiting[..k] == waiting;
    }

    // -------------------------------------------------------------------
    // A tick
    // -------------------------------------------------------------------

    /** In the middle of a tick: the list being visited has been dealt with up to `it`. */
    ghost predicate Turning(bucket: nat, it: nat)
      reads `decayItems, `lastBucket, `tick, `items, items`place, items`duration, items`due
    {
      |decayItems| == BUCKETS && lastBucket < BUCKETS && bucket == (lastBucket + 1) % BUCKETS && it <= |decayItems[bucket]| &&
      (forall x <- decayItems[bucket] :: x in items) && OthersDue(bucket) && VisitedDue(decayItems[bucket], it)
    }

    /** The items on the other lists leave in time. */
    ghost predicate OthersDue(bucket: nat)
      requires bucket < BUCKETS
      reads `tick, `items, items`place, items`duration, items`due
    {
      forall x <- items | x.place.In? && x.place.bucket < BUCKETS && x.place.bucket != bucket ::
        x.due == tick + 1 + Ticks(Offset(x.place.bucket, bucket), x.duration)
    }

    /** So do those on the list being visited, the ones dealt with and the others. */
    ghost predicate VisitedDue(visited: seq<Item>, it: nat)
      requires it <= |visited|
      reads `tick, visited`duration, visited`due
    {
      (forall k | 0 <= k < it :: visited[k].due == tick + 1 + Ticks(BUCKETS - 1, visited[k].duration)) &&
      forall k | it <= k < |visited| :: visited[k].due == tick + Ticks(0, visited[k].duration)
    }

    /** Everything that holds between two visits. */
    ghost predicate Midway(bucket: nat, it: nat)
      reads this, items
    {
      Lists() && Ledger() && Turning(bucket, it) && Books(tick + 1) && Settled()
    }

    lemma TurnBegins(bucket: nat)
      requires Valid() && bucket == (lastBucket + 1) % BUCKETS
      ensures Midway(bucket, 0)
    {
      hide Ticks, Offset, Ledger, Settled, NoDup;
      forall x <- items | x.place.In?
        ensures x.due == tick + (if x.place.bucket == bucket then Ticks(0, x.duration)
                                 else 1 + Ticks(Offset(x.place.bucket, bucket), x.duration))
      {
        OffsetNext(x.place.bucket, lastBucket);
        TicksShift(Offset(x.place.bucket, bucket), x.duration);
      }
    }

    lemma TurnEnds(bucket: nat, it: nat)
      requires Lists() && Turning(bucket, it) && it == |decayItems[bucket]|
      ensures TimelyFor(bucket, tick + 1)
    {
      OffsetNext(bucket, lastBucket);
      hide Ticks, Offset, NoDup;
      forall x <- items | x.place == In(bucket) ensures x.due == tick + 1 + Ticks(BUCKETS - 1, x.duration) {
        var k :| 0 <= k < |decayItems[bucket]| && decayItems[bucket][k] == x;
      }
    }

    lemma EntryFacts(x: Item, bucket: nat, it: nat)
      requires Midway(bucket, it) && it < |decayItems[bucket]| && x == decayItems[bucket][it]
      ensures x in items && x.place == In(bucket) && x.decaying == Yes && x.duration > 0 && x.taken == 0
      ensures x.due == tick + Ticks(0, x.duration)
    {
    }

    /** The list is through: the tick is over. */
    method EndTurn(bucket: nat, it: nat)
      requires Midway(bucket, it) && it == |decayItems[bucket]|
      modifies `lastBucket, `tick
      ensures Valid() && lastBucket == bucket && tick == old(tick) + 1
    {
      TurnEnds(bucket, it);
      hide Ticks, Offset, Ledger, Settled, Books, Lists, Turning, TimelyFor;
      lastBucket := bucket;
      tick := tick + 1;
    }

    /** Everything that holds while one item is between the lists. */
    ghost predicate Apart(x: Item, bucket: nat, it: nat)
      reads this, items
    {
      Lists() && Ledger() && Turning(bucket, it) && Books(tick + 1) && SettledBut(x) && x in items && !x.place.In? && !x.open
    }

    lemma Together(x: Item, bucket: nat, it: nat)
      requires Apart(x, bucket, it) && x.taken == 0
      ensures Midway(bucket, it)
    {
      hide Lists, Ledger, Turning, Books;
    }

    /** Takes an entry off the list; whoever takes it answers for its reference. The entry ends, in decay or not. */
    method TakeOff(x: Item, bucket: nat, it: nat, ghost decays: bool)
      requires Midway(bucket, it) && it < |decayItems[bucket]| && x == decayItems[bucket][it]
      requires decays ==> x.due <= tick + 1
      modifies `decayItems, `decayed, `dropped, x`place, x`taken, x`open
      ensures Apart(x, bucket, it) && x.place.Out? && x.taken == 1
      ensures decayItems == old(decayItems)[bucket := Without(old(decayItems[bucket]), it)]
      ensures Ended(old(decayed), old(dropped), Entry(x, x.due), decays)
    {
      hide Midway, Lists, Ledger, Books, Turning, Settled, SettledBut, Without, Ended;
      MidwayFacts(x, bucket, it);
      Close(x, decays);
      Erase(x, bucket, it);
    }

    lemma MidwayFacts(x: Item, bucket: nat, it: nat)
      requires Midway(bucket, it) && it < |decayItems[bucket]| && x == decayItems[bucket][it]
      ensures Lists() && Ledger() && Turning(bucket, it) && Books(tick + 1) && SettledBut(x)
      ensures x in items && x.open && x.taken == 0
    {
      EntryFacts(x, bucket, it);
      AllBut(x);
    }

    /** One entry has been moved to the decayed or to the dropped ones. */
    ghost predicate Ended(decayed0: multiset<Entry>, dropped0: multiset<Entry>, e: Entry, decays: bool)
      reads `decayed, `dropped
    {
      decayed == (if decays then decayed0 + multiset{e} else decayed0) &&
      dropped == if decays then dropped0 else dropped0 + multiset{e}
    }

    lemma AllBut(x: Item)
      requires Settled()
      ensures SettledBut(x)
    {
    }

    lemma OnceOnly(x: Item, bucket: nat, it: nat)
      requires Lists() && bucket < BUCKETS && it < |decayItems[bucket]| && x == decayItems[bucket][it]
      ensures forall k | 0 <= k < |decayItems[bucket]| && k != it :: decayItems[bucket][k] != x
    {
    }

    /** An entry ends. */
    ghost method Close(x: Item, decays: bool)
      requires Books(tick + 1) && x in items && x.open && (decays ==> x.due <= tick + 1)
      modifies `decayed, `dropped, x`open
      ensures Books(tick + 1) && !x.open && Ended(old(decayed), old(dropped), Entry(x, x.due), decays)
    {
      x.open := false;
      if decays {
        decayed := decayed + multiset{Entry(x, x.due)};
      } else {
        dropped := dropped + multiset{Entry(x, x.due)};
      }
    }

    method Erase(x: Item, bucket: nat, it: nat)
      requires Lists() && Ledger() && Turning(bucket, it)
      requires it < |decayItems[bucket]| && x == decayItems[bucket][it]
      modifies `decayItems, x`place, x`taken
      ensures Lists() && Ledger() && Turning(bucket, it)
      ensures decayItems == old(decayItems)[bucket := Without(old(decayItems[bucket]), it)]
      ensures x.place.Out? && x.taken == old(x.taken) + 1
    {
      OnceOnly(x, bucket, it);
      hide Ticks, Offset, Lists, Ledger, NoDup;
      Unlink(x, bucket, it);
    }

    method Unlink(x: Item, bucket: nat, it: nat)
      requires Lists() && Ledger() && bucket < BUCKETS && |decayItems| == BUCKETS
      requires it < |decayItems[bucket]| && x == decayItems[bucket][it]
      modifies `decayItems, x`place, x`taken
      ensures Lists() && Ledger()
      ensures decayItems == old(decayItems)[bucket := Without(old(decayItems[bucket]), it)]
      ensures x.place.Out? && x.taken == old(x.taken) + 1
    {
      assert x in items && x.place == In(bucket);
      hide Lists, Without;
      Detach(x, bucket, it);
    }

    method Detach(x: Item, bucket: nat, it: nat)
      requires Lists() && bucket < BUCKETS && |decayItems| == BUCKETS
      requires it < |decayItems[bucket]| && x == decayItems[bucket][it]
      modifies `decayItems, x`place, x`taken
      ensures Lists()
      ensures decayItems == old(decayItems)[bucket := Without(old(decayItems[bucket]), it)]
      ensures x.place.Out? && x.taken == old(x.taken) + 1
    {
      NoDupWithout(decayItems[bucket], it);
      hide NoDup, Without;
      x.place := Out;
      x.taken := x.taken + 1;
      decayItems := decayItems[bucket := Without(decayItems[bucket], it)];
    }

    /** Gives up the reference of an entry that was taken off. */
    method GiveUp(x: Item, bucket: nat, it: nat)
      requires Apart(x, bucket, it) && x.taken == 1
      modifies `toRelease, x`held, x`taken
      ensures Midway(bucket, it) && toRelease == old(toRelease) + [x]
    {
      hide Lists, Ledger, Turning, Books, SettledBut;
      ReleaseItem(x, true);
      Together(x, bucket, it);
    }

    /** An entry that may no longer decay leaves without having decayed. */
    method Drop(x: Item, bucket: nat, it: nat)
      requires Midway(bucket, it) && it < |decayItems[bucket]| && x == decayItems[bucket][it] && !x.canDecay
      modifies `decayItems, `toRelease, `decayed, `dropped, x`place, x`taken, x`held, x`open, x`decaying
      ensures Midway(bucket, it)
      ensures decayItems == old(decayItems)[bucket := Without(old(decayItems[bucket]), it)]
      ensures x.decaying == No && toRelease == old(toRelease) + [x]
      ensures Ended(old(decayed), old(dropped), Entry(x, x.due), false)
    {
      hide Midway, Apart, Ended;
      TakeOff(x, bucket, it, false);
      StopDecaying(x, bucket, it);
      GiveUp(x, bucket, it);
    }

    method StopDecaying(x: Item, bucket: nat, it: nat)
      requires Apart(x, bucket, it) && x.place.Out?
      modifies x`decaying
      ensures Apart(x, bucket, it) && x.decaying == No
    {
      hide Ledger, Turning, Books, SettledBut;
      x.decaying := No;
    }

    /** Sets the time of an item that is not in the wheel. */
    method SetTime(x: Item, left: nat, bucket: nat, it: nat)
      requires Apart(x, bucket, it) && x.place.Out?
      modifies x`duration
      ensures Apart(x, bucket, it) && x.duration == left
    {
      hide Ticks, Offset, NoDup, Ledger, Books, SettledBut;
      NotOnList(x, bucket);
      x.duration := left;
    }

    /** An entry whose time is up leaves and decays. */
    method Expire(x: Item, left: nat, bucket: nat, it: nat, world: World, ghost rank: int -> nat)
      requires Midway(bucket, it) && it < |decayItems[bucket]| && x == decayItems[bucket][it] && x.canDecay
      requires x.due == tick + 1 && Settles(world, rank)
      modifies `decayItems, `toDecayItems, `toRelease, `items, `decayed, `dropped, x
      ensures Midway(bucket, it)
      ensures decayItems == old(decayItems)[bucket := Without(old(decayItems[bucket]), it)]
      ensures old(items) <= items && fresh(items - old(items))
      ensures Ended(old(decayed), old(dropped), old(Entry(x, x.due)), true)
    {
      hide Midway, Apart, Ended, Settles;
      TakeOff(x, bucket, it, true);
      SetTime(x, left, bucket, it);
      DecayNow(x, bucket, it, world, rank);
      GiveUp(x, bucket, it);
    }

    /** What becomes of an item that has left the list does not disturb the turn. */
    method DecayNow(x: Item, bucket: nat, it: nat, world: World, ghost rank: int -> nat)
      requires Apart(x, bucket, it) && x.place.Out? && Settles(world, rank)
      modifies `toDecayItems, `toRelease, `items, x
      ensures Apart(x, bucket, it) && x.taken == old(x.taken)
      ensures old(items) <= items && fresh(items - old(items))
    {
      hide Ledger, Settles, Lists, Turning;
      Undisturbed(x, bucket, it, world, rank);
    }

    method Undisturbed(x: Item, bucket: nat, it: nat, world: World, ghost rank: int -> nat)
      requires Lists() && Ledger() && Turning(bucket, it) && x in items && x.place.Out? && Settles(world, rank)
      modifies `toDecayItems, `toRelease, `items, x
      ensures Lists() && Ledger() && Turning(bucket, it) && Grown(old(items)) && fresh(items - old(items))
      ensures x.taken == old(x.taken) && x.open == old(x.open) && x.due == old(x.due) && !x.place.In?
    {
      NotOnList(x, bucket);
      hide Ledger, Settles, Lists, VisitedDue, OthersDue, Grown;
      OthersUndisturbed(x, bucket, world, rank);
      assert old(items) <= items by { GrownKeeps(old(items)); }
    }

    lemma GrownKeeps(were: set<Item>)
      requires Grown(were)
      ensures were <= items
    {
    }

    method OthersUndisturbed(x: Item, bucket: nat, world: World, ghost rank: int -> nat)
      requires Lists() && Ledger() && bucket < BUCKETS && OthersDue(bucket)
      requires x in items && x.place.Out? && Settles(world, rank)
      modifies `toDecayItems, `toRelease, `items, x
      ensures Lists() && Ledger() && OthersDue(bucket) && Grown(old(items)) && fresh(items - old(items))
      ensures x.taken == old(x.taken) && x.open == old(x.open) && x.due == old(x.due) && !x.place.In?
    {
      hide Ledger, Ticks, Offset, Settles, Lists, Succeeded;
      InternalDecayItem(x, world, rank);
    }

    lemma NotOnList(x: Item, bucket: nat)
      requires Lists() && bucket < BUCKETS && !x.place.In?
      ensures x !in decayItems[bucket]
    {
    }

    /** An entry with seven eighths of a second or more to go is visited once more in the next tick. */
    method Shift(x: Item, left: nat, newBucket: nat, bucket: nat, it: nat)
      requires Midway(bucket, it) && it < |decayItems[bucket]| && x == decayItems[bucket][it]
      requires x.duration == left + SPAN && 0 < left && newBucket < BUCKETS && newBucket != bucket
      requires Ticks(0, left + SPAN) == 1 + Ticks(Offset(newBucket, bucket), left)
      modifies `decayItems, x`place, x`duration
      ensures Midway(bucket, it) && x.place.In?
      ensures decayItems[bucket] == Without(old(decayItems[bucket]), it)
    {
      hide Lists, Turning, Ledger, Books, Ticks, Offset;
      EntryFacts(x, bucket, it);
      Relink(x, left, newBucket, bucket, it);
    }

    /** Moves an entry from the list being visited to another one. */
    method Relink(x: Item, left: nat, newBucket: nat, bucket: nat, it: nat)
      requires Lists() && Ledger() && Turning(bucket, it) && it < |decayItems[bucket]| && x == decayItems[bucket][it]
      requires left > 0 && newBucket < BUCKETS && newBucket != bucket
      requires x.due == tick + 1 + Ticks(Offset(newBucket, bucket), left)
      modifies `decayItems, x`place, x`duration
      ensures Lists() && Ledger() && Turning(bucket, it) && x.place.In?
      ensures decayItems[bucket] == Without(old(decayItems[bucket]), it)
    {
      VisitedWithout(x, bucket, it);
      hide Lists, Ledger, NoDup, VisitedDue, OthersDue, Without, Ticks, Offset;
      RelinkOthers(x, left, newBucket, bucket, it);
      assert forall y <- decayItems[bucket] :: y in items by { Listed(bucket); }
    }

    lemma Listed(bucket: nat)
      requires Lists() && bucket < BUCKETS
      ensures |decayItems| == BUCKETS && forall y <- decayItems[bucket] :: y in items
    {
    }

    lemma VisitedWithout(x: Item, bucket: nat, it: nat)
      requires Lists() && Turning(bucket, it) && it < |decayItems[bucket]| && x == decayItems[bucket][it]
      ensures x !in Without(decayItems[bucket], it) && VisitedDue(Without(decayItems[bucket], it), it)
    {
      NoDupWithout(decayItems[bucket], it);
      hide Ticks, NoDup;
    }

    method RelinkOthers(x: Item, left: nat, newBucket: nat, bucket: nat, it: nat)
      requires Lists() && Ledger() && bucket < BUCKETS && |decayItems| == BUCKETS && OthersDue(bucket)
      requires it < |decayItems[bucket]| && x == decayItems[bucket][it]
      requires left > 0 && newBucket < BUCKETS && newBucket != bucket
      requires x.due == tick + 1 + Ticks(Offset(newBucket, bucket), left)
      modifies `decayItems, x`place, x`duration
      ensures Lists() && Ledger() && OthersDue(bucket) && x.place.In? && |decayItems| == BUCKETS
      ensures decayItems[bucket] == Without(old(decayItems[bucket]), it)
    {
      hide Ticks, Offset, Lists, Ledger, NoDup, Without;
      MoveTo(x, left, newBucket, bucket, it);
    }

    method MoveTo(x: Item, left: nat, newBucket: nat, bucket: nat, it: nat)
      requires Lists() && Ledger() && bucket < BUCKETS && |decayItems| == BUCKETS
      requires it < |decayItems[bucket]| && x == decayItems[bucket][it]
      requires left > 0 && newBucket < BUCKETS && newBucket != bucket
      modifies `decayItems, x`place, x`duration
      ensures Lists() && Ledger() && x.place == In(newBucket) && x.duration == left
      ensures decayItems == old(decayItems)[bucket := Without(old(decayItems[bucket]), it)]
                                           [newBucket := old(decayItems[newBucket]) + [x]]
    {
      assert x in items && x.place == In(bucket);
      hide Lists, Without;
      Reattach(x, left, newBucket, bucket, it);
    }

    method Reattach(x: Item, left: nat, newBucket: nat, bucket: nat, it: nat)
      requires Lists() && bucket < BUCKETS && |decayItems| == BUCKETS
      requires it < |decayItems[bucket]| && x == decayItems[bucket][it]
      requires left > 0 && newBucket < BUCKETS && newBucket != bucket
      modifies `decayItems, x`place, x`duration
      ensures Lists() && x.place == In(newBucket) && x.duration == left
      ensures decayItems == old(decayItems)[bucket := Without(old(decayItems[bucket]), it)]
                                           [newBucket := old(decayItems[newBucket]) + [x]]
    {
      NoDupWithout(decayItems[bucket], it);
      NoDupSnoc(decayItems[newBucket], x);
      hide NoDup, Without;
      x.place := In(newBucket);
      x.duration := left;
      decayItems := decayItems[bucket := Without(decayItems[bucket], it)][newBucket := decayItems[newBucket] + [x]];
    }

    /** An entry with a second or more to go stays where it is. */
    method Stay(x: Item, left: nat, bucket: nat, it: nat)
      requires Midway(bucket, it) && it < |decayItems[bucket]| && x == decayItems[bucket][it]
      requires x.duration == left + SPAN && left >= SPAN
      modifies x`duration
      ensures Midway(bucket, it + 1) && x.duration == left
    {
      hide Lists, Turning, Ledger, Books, Settled;
      EntryFacts(x, bucket, it);
      Keep(x, left, bucket, it);
    }

    method Keep(x: Item, left: nat, bucket: nat, it: nat)
      requires Lists() && Turning(bucket, it) && it < |decayItems[bucket]| && x == decayItems[bucket][it]
      requires x.duration == left + SPAN && left >= SPAN
      modifies x`duration
      ensures Lists() && Turning(bucket, it + 1) && x.duration == left
    {
      assert Ticks(0, x.duration) == 1 + Ticks(BUCKETS - 1, left);
      OnceOnly(x, bucket, it);
      assert x in items && x.place == In(bucket);
      hide Ticks, Offset, Lists, NoDup;
      Shorten(x, left);
    }

    method Shorten(x: Item, left: nat)
      requires Lists() && left > 0
      modifies x`duration
      ensures Lists() && x.duration == left
    {
      hide NoDup;
      x.duration := left;
    }

    /** Deals with one entry of the list being visited. */
    method Visit(x: Item, bucket: nat, it: nat, world: World, ghost rank: int -> nat) returns (next: nat)
      requires Midway(bucket, it) && it < |decayItems[bucket]| && x == decayItems[bucket][it] && Settles(world, rank)
      modifies `decayItems, `toDecayItems, `toRelease, `items, `decayed, `dropped, x
      ensures Midway(bucket, next) && bucket < |decayItems|
      ensures |decayItems[bucket]| - next == |old(decayItems[bucket])| - it - 1
      ensures old(items) <= items && fresh(items - old(items))
      ensures old(decayed) <= decayed && old(dropped) <= dropped
      ensures old(x.canDecay && x.due == tick + 1) ==> Ended(old(decayed), old(dropped), old(Entry(x, x.due)), true)
      ensures old(x.canDecay && x.due != tick + 1) ==> decayed == old(decayed) && dropped == old(dropped)
      ensures !old(x.canDecay) ==> Ended(old(decayed), old(dropped), old(Entry(x, x.due)), false)
    {
      MidwayCount(bucket, it);
      hide Midway, Settles, Without;
      if !x.canDecay {
        Drop(x, bucket, it);
        next := it;
        MidwayCount(bucket, next);
        return;
      }
      next := Advance(x, bucket, it, world, rank);
    }

    /** An entry that may decay loses a second: it decays, moves to another list or stays. */
    method Advance(x: Item, bucket: nat, it: nat, world: World, ghost rank: int -> nat) returns (next: nat)
      requires Midway(bucket, it) && it < |decayItems[bucket]| && x == decayItems[bucket][it] && Settles(world, rank)
      requires x.canDecay
      modifies `decayItems, `toDecayItems, `toRelease, `items, `decayed, `dropped, x
      ensures Midway(bucket, next) && bucket < |decayItems|
      ensures |decayItems[bucket]| - next == |old(decayItems[bucket])| - it - 1
      ensures old(items) <= items && fresh(items - old(items))
      ensures if old(x.due == tick + 1) then Ended(old(decayed), old(dropped), old(Entry(x, x.due)), true)
              else decayed == old(decayed) && dropped == old(dropped)
    {
      EntryFacts(x, bucket, it);
      hide Midway, Settles, Without, Ended;
      var duration := x.duration;
      var decreaseTime := if SPAN < duration then SPAN else duration;
      duration := duration - decreaseTime;
      next := it;
      if duration <= 0 {
        Expire(x, duration, bucket, it, world, rank);
      } else if duration < SPAN {
        var newBucket := (bucket + (duration + HALF) / SPAN) % BUCKETS;
        LastBit(bucket, duration);
        if newBucket == bucket {
          Expire(x, duration, bucket, it, world, rank);
        } else {
          NextList(bucket, duration);
          Shift(x, duration, newBucket, bucket, it);
        }
      } else {
        Stay(x, duration, bucket, it);
        next := it + 1;
      }
      MidwayCount(bucket, next);
    }

    lemma MidwayCount(bucket: nat, it: nat)
      requires Midway(bucket, it)
      ensures bucket < BUCKETS == |decayItems| && it <= |decayItems[bucket]|
    {
    }

    /** A tick: visits the next list, then cleans up. */
    method CheckDecay(world: World, ghost rank: int -> nat)
      requires Valid() && Settles(world, rank)
      modifies this, items
      ensures Valid() && tick == old(tick) + 1 && lastBucket == (old(lastBucket) + 1) % BUCKETS
      ensures old(items) <= items && fresh(items - old(items))
      ensures old(entered) <= entered && old(decayed) <= decayed && old(dropped) <= dropped
    {
      hide Valid, Midway, Settles, Ended;
      var bucket := (lastBucket + 1) % BUCKETS;
      TurnBegins(bucket);
      MidwayCount(bucket, 0);
      var it: nat := 0;
      while it < |decayItems[bucket]|
        invariant |decayItems| == BUCKETS && it <= |decayItems[bucket]| && Midway(bucket, it)
        invariant old(items) <= items && fresh(items - old(items))
        invariant tick == old(tick) && entered == old(entered) && old(decayed) <= decayed && old(dropped) <= dropped
        decreases |decayItems[bucket]| - it
      {
        var x := decayItems[bucket][it];
        MidwayFacts(x, bucket, it);
        it := Visit(x, bucket, it, world, rank);
        MidwayCount(bucket, it);
      }
      EndTurn(bucket, it);
      Cleanup();
    }
  }
}
