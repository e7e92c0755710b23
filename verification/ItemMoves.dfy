/** The queries a container answers, and the item moves built on them. */
module ItemMoves {
  import opened Basics
  import opened Containers

  const MAP_MAX_LAYERS := 16
  const MOVE_UP := 254
  const ADD_WHEREVER := 255
  const NO_FLAGS := Flags(false, false, false, false)

  // ---------------------------------------------------------------------
  // Counting items of one kind
  // ---------------------------------------------------------------------

  function Counts(s: seq<Item>, t: ItemType): (r: seq<int>)
    reads s`ty, s`count
    ensures |r| == |s| && forall i | 0 <= i < |s| :: r[i] == if s[i].ty == t then s[i].count else 0
  {
    if s == [] then [] else [if s[0].ty == t then s[0].count else 0] + Counts(s[1..], t)
  }

  /** How many items of a type a list shows: stacks count with their size. */
  function CountOf(s: seq<Item>, t: ItemType): int
    reads s`ty, s`count
  {
    Sum(Counts(s, t))
  }

  lemma CountsAre(s: seq<Item>, t: ItemType, r: seq<int>)
    requires |r| == |s| && forall i | 0 <= i < |s| :: r[i] == if s[i].ty == t then s[i].count else 0
    ensures Counts(s, t) == r
  {
  }

  lemma CountAppend(a: seq<Item>, b: seq<Item>, t: ItemType)
    ensures CountOf(a + b, t) == CountOf(a, t) + CountOf(b, t)
  {
    hide Sum;
    CountsAre(a + b, t, Counts(a, t) + Counts(b, t));
    SumAppend(Counts(a, t), Counts(b, t));
  }

  lemma CountOne(x: Item, t: ItemType)
    ensures CountOf([x], t) == if x.ty == t then x.count else 0
  {
    var v: int := if x.ty == t then x.count else 0;
    SumOne(v);
    CountsAre([x], t, [v]);
  }

  lemma InsertedCount(s: seq<Item>, pos: nat, x: Item, t: ItemType)
    requires pos <= |s|
    ensures CountOf(Inserted(s, pos, x), t) == CountOf(s, t) + if x.ty == t then x.count else 0
  {
    hide CountOf;
    assert s == s[..pos] + s[pos..];
    CountAppend(s[..pos], s[pos..], t);
    CountAppend(s[..pos] + [x], s[pos..], t);
    CountAppend(s[..pos], [x], t);
    CountOne(x, t);
  }

  lemma ErasedCount(s: seq<Item>, pos: nat, t: ItemType)
    requires pos < |s|
    ensures CountOf(Without(s, pos), t) == CountOf(s, t) - if s[pos].ty == t then s[pos].count else 0
  {
    hide CountOf, Inserted;
    InsertedCount(Without(s, pos), pos, s[pos], t);
    InsertUndoesErase(s, pos);
  }

  lemma ChangedCount(s: seq<Item>, k: nat, t: ItemType, before: seq<int>)
    requires k < |s| && |before| == |s|
    requires forall i | 0 <= i < |s| && i != k :: before[i] == if s[i].ty == t then s[i].count else 0
    ensures CountOf(s, t) == Sum(before) - before[k] + if s[k].ty == t then s[k].count else 0
  {
    hide Sum;
    var v: int := if s[k].ty == t then s[k].count else 0;
    CountsAre(s, t, before[k := v]);
    SumUpdate(before, k, v);
  }

  /** Stacks fit their type, and only plain items stack. */
  ghost predicate StacksOk(w: set<Item>)
    reads w
  {
    forall x | x in w && x.ty.stackable :: !x.container && !x.ty.fluid && x.count <= x.ty.stackSize <= 255
  }

  ghost predicate WithinCapacity(w: set<Item>)
    reads w
  {
    forall x | x in w :: |x.itemlist| <= x.maxSize
  }

  // ---------------------------------------------------------------------
  // Queries
  // ---------------------------------------------------------------------

  /** `carried` is the verdict of whatever carries the topmost container; NOERROR when nothing does. */
  ghost function AddVerdict(c: Item, index: int, item: Item, flags: Flags, carried: ReturnValue, w: set<Item>): ReturnValue
    requires c in w && Links(w)
    reads w, item
  {
    if flags.childIsOwner then NOERROR
    else if !item.ty.pickupable then CANNOTPICKUP
    else if item in Ancestors(c, w) then THISISIMPOSSIBLE
    else if !flags.noLimit && index == INDEX_WHEREEVER && |c.itemlist| >= c.maxSize then CONTAINERNOTENOUGHROOM
    else carried
  }

  method QueryAdd(c: Item, index: int, item: Item, flags: Flags, carried: ReturnValue, ghost w: set<Item>)
    returns (ret: ReturnValue)
    requires c in w && Links(w)
    ensures ret == AddVerdict(c, index, item, flags, carried, w)
  {
    hide LinkOk;
    if flags.childIsOwner {
      return NOERROR;
    }
    if !item.ty.pickupable {
      return CANNOTPICKUP;
    }
    if item == c {
      return THISISIMPOSSIBLE;
    }
    var cylinder := c.parent;
    ghost var last := c;
    while cylinder != null
      invariant last in w && cylinder == last.parent
      invariant item in Ancestors(c, w) <==> item in Ancestors(last, w)
      invariant item != last
      decreases cylinder != null, Above(last, w)
    {
      ghost var k := IndexIn(last, w);
      AboveShrinks(last, w);
      if cylinder == item {
        assert cylinder in Ancestors(last, w);
        return THISISIMPOSSIBLE;
      }
      last := cylinder;
      cylinder := cylinder.parent;
    }
    assert item !in Ancestors(c, w);
    if !flags.noLimit && index == INDEX_WHEREEVER && |c.itemlist| >= c.maxSize {
      return CONTAINERNOTENOUGHROOM;
    }
    return carried;
  }

  predicate HasSpace(x: Item, item: Item)
    reads x, item
  {
    x != item && x.Equals(item) && x.count < x.StackSize()
  }

  function Spare(s: seq<Item>, item: Item): nat
    reads s, item
  {
    if s == [] then 0
    else (if HasSpace(s[0], item) then s[0].StackSize() - s[0].count else 0) + Spare(s[1..], item)
  }

  lemma {:induction false} SpareAppend(a: seq<Item>, b: seq<Item>, item: Item)
    ensures Spare(a + b, item) == Spare(a, item) + Spare(b, item)
  {
    if a == [] {
      assert a + b == b;
    } else {
      assert (a + b)[1..] == a[1..] + b;
      SpareAppend(a[1..], b, item);
    }
  }

  lemma NoSpareAtAll(item: Item)
    ensures Spare([], item) == 0
  {
  }

  lemma SpareSnoc(s: seq<Item>, x: Item, item: Item)
    ensures Spare(s + [x], item) == Spare(s, item) + if HasSpace(x, item) then x.StackSize() - x.count else 0
  {
    SpareAppend(s, [x], item);
    assert [x][1..] == [];
  }

  function FreeSlots(c: Item): nat
    reads c
  {
    if |c.itemlist| < c.maxSize then c.maxSize - |c.itemlist| else 0
  }

  function Times(slots: nat, size: nat): nat { slots * size }

  ghost function MaxCount(c: Item, index: int, item: Item, count: nat, flags: Flags, carried: ReturnValue, w: set<Item>): nat
    requires c in w && Links(w) && index >= -1
    reads w, item
  {
    if flags.noLimit then if count < 1 then 1 else count
    else if !item.ty.stackable then FreeSlots(c)
    else Times(FreeSlots(c), item.StackSize()) + StackRoom(c, index, item, flags, carried, w)
  }

  /** Room left in stacks the item could join: all of them, or only the one at the given position. */
  ghost function StackRoom(c: Item, index: int, item: Item, flags: Flags, carried: ReturnValue, w: set<Item>): nat
    requires c in w && Links(w) && index >= -1
    reads w, item
  {
    Held(c, w);
    if AddVerdict(c, 0, item, flags, carried, w) != NOERROR then 0
    else if index == INDEX_WHEREEVER then Spare(c.itemlist, item)
    else if index < |c.itemlist| && item.Equals(c.itemlist[index]) && c.itemlist[index].count < c.itemlist[index].StackSize()
    then c.itemlist[index].StackSize() - c.itemlist[index].count
    else 0
  }

  /** Every slot is as good as the first one. */
  lemma AnySlot(c: Item, index: nat, item: Item, flags: Flags, carried: ReturnValue, w: set<Item>)
    requires c in w && Links(w)
    ensures AddVerdict(c, index, item, flags, carried, w) == AddVerdict(c, 0, item, flags, carried, w)
  {
    hide Links, Ancestors;
  }

  /** The room left in all stacks of c that the item could join. */
  method SpareRoom(c: Item, item: Item, flags: Flags, carried: ReturnValue, ghost w: set<Item>) returns (n: nat)
    requires c in w && Links(w)
    ensures n == StackRoom(c, INDEX_WHEREEVER, item, flags, carried, w)
  {
    hide LinkOk, Ancestors, Spare, Links, AddVerdict, Item.Equals, Item.StackSize;
    n := 0;
    var slotIndex, i := 0, 0;
    NoSpareAtAll(item);
    assert c.itemlist[..0] == [];
    while i < |c.itemlist|
      invariant 0 <= i <= |c.itemlist| && slotIndex >= 0
      invariant n == if AddVerdict(c, 0, item, flags, carried, w) == NOERROR then Spare(c.itemlist[..i], item) else 0
    {
      var containerItem := c.itemlist[i];
      assert c.itemlist[..i + 1] == c.itemlist[..i] + [containerItem];
      SpareSnoc(c.itemlist[..i], containerItem, item);
      if containerItem != item && containerItem.Equals(item) && containerItem.count < containerItem.StackSize() {
        var verdict := QueryAdd(c, slotIndex, item, flags, carried, w);
        AnySlot(c, slotIndex, item, flags, carried, w);
        slotIndex := slotIndex + 1;
        if verdict == NOERROR {
          n := n + containerItem.StackSize() - containerItem.count;
        }
      }
      i := i + 1;
    }
    assert c.itemlist[..i] == c.itemlist;
  }

  /** The room left in the stack at one position. */
  method SlotRoom(c: Item, index: nat, item: Item, flags: Flags, carried: ReturnValue, ghost w: set<Item>) returns (n: nat)
    requires c in w && Links(w)
    ensures n == StackRoom(c, index, item, flags, carried, w)
  {
    hide LinkOk, Ancestors, Spare;
    Held(c, w);
    if index < |c.itemlist| {
      var destItem := c.itemlist[index];
      if item.Equals(destItem) && destItem.count < destItem.StackSize() {
        var verdict := QueryAdd(c, index, item, flags, carried, w);
        if verdict == NOERROR {
          return destItem.StackSize() - destItem.count;
        }
      }
    }
    return 0;
  }

  method QueryMaxCount(c: Item, index: int, item: Item, count: nat, flags: Flags, carried: ReturnValue, ghost w: set<Item>)
    returns (ret: ReturnValue, maxQueryCount: nat)
    requires c in w && Links(w) && index >= -1
    ensures maxQueryCount == MaxCount(c, index, item, count, flags, carried, w)
    ensures ret == if !flags.noLimit && (if item.ty.stackable then maxQueryCount < count else maxQueryCount == 0)
                   then CONTAINERNOTENOUGHROOM else NOERROR
  {
    hide LinkOk, Ancestors, Spare, StackRoom, AddVerdict, Times, FreeSlots, Item.StackSize;
    if flags.noLimit {
      return NOERROR, if count < 1 then 1 else count;
    }
    var freeSlots := FreeSlots(c);
    if item.ty.stackable {
      var n;
      if index == INDEX_WHEREEVER {
        n := SpareRoom(c, item, flags, carried, w);
      } else {
        n := SlotRoom(c, index, item, flags, carried, w);
      }
      maxQueryCount := Times(freeSlots, item.StackSize()) + n;
      ret := if maxQueryCount < count then CONTAINERNOTENOUGHROOM else NOERROR;
    } else {
      maxQueryCount := freeSlots;
      ret := if maxQueryCount == 0 then CONTAINERNOTENOUGHROOM else NOERROR;
    }
  }

  method QueryRemove(c: Item, item: Item, count: nat, flags: Flags) returns (ret: ReturnValue)
    ensures ret == if item !in c.itemlist || count == 0 || (item.ty.stackable && count > item.count) then NOTPOSSIBLE
                   else if !item.ty.moveable && !flags.ignoreNotMoveable then NOTMOVEABLE
                   else NOERROR
  {
    var index := GetThingIndex(c, item);
    if index == -1 {
      return NOTPOSSIBLE;
    }
    if count == 0 || (item.ty.stackable && count > item.count) {
      return NOTPOSSIBLE;
    }
    if !item.ty.moveable && !flags.ignoreNotMoveable {
      return NOTMOVEABLE;
    }
    return NOERROR;
  }

  predicate AutoStacks(c: Item, item: Item, flags: Flags)
    reads item
  {
    !flags.ignoreAutoStack && item.ty.stackable && item.parent != c
  }

  /** A container, a position in it and the item found there. */
  datatype Aim = Aim(to: Item, index: int, toItem: Item?)

  /** The first stack that the item could join. */
  function FirstSpace(s: seq<Item>, item: Item): (i: int)
    reads s, item
    ensures -1 <= i < |s|
    ensures i == -1 ==> forall x <- s :: !HasSpace(x, item)
    ensures i >= 0 ==> HasSpace(s[i], item) && forall j | 0 <= j < i :: !HasSpace(s[j], item)
  {
    if s == [] then -1
    else if HasSpace(s[0], item) then 0
    else
      var rest := FirstSpace(s[1..], item);
      if rest == -1 then -1 else rest + 1
  }

  /** What a move meant for a slot of c is aimed at. */
  ghost function AimAt(c: Item, index: int, item: Item, flags: Flags): Aim
    requires index >= -1
    reads c, c.itemlist, item
  {
    if index == MOVE_UP then Aim(if c.parent != null then c.parent else c, INDEX_WHEREEVER, null)
    else
      var slot := if index == ADD_WHEREVER || index >= c.maxSize then INDEX_WHEREEVER else index;
      var there := if slot != INDEX_WHEREEVER && slot < |c.itemlist| then c.itemlist[slot] else null;
      if there != null && there.container then Aim(there, INDEX_WHEREEVER, null)
      else if !AutoStacks(c, item, flags) || (there != null && there.Equals(item) && there.count < there.StackSize())
      then Aim(c, slot, there)
      else
        var n := FirstSpace(c.itemlist, item);
        if n == -1 then Aim(c, slot, there) else Aim(c, n, c.itemlist[n])
  }

  /** Where an item meant for c really goes: up to c's parent, into a container at the position, or
      into c itself, preferably onto a stack with room. */
  method QueryDestination(c: Item, index: int, item: Item, flags: Flags, ghost w: set<Item>)
    returns (to: Item, toIndex: int, destItem: Item?)
    requires c in w && Links(w) && StacksOk(w) && c.container && index >= -1
    ensures Aim(to, toIndex, destItem) == AimAt(c, index, item, flags)
    ensures to in w && to.container && -1 <= toIndex && (toIndex < to.maxSize || destItem != null)
    ensures to != c ==> toIndex == INDEX_WHEREEVER && destItem == null
    ensures index == MOVE_UP ==> to == (if c.parent != null then c.parent else c) && toIndex == INDEX_WHEREEVER && destItem == null
    ensures to == c && destItem != null ==>
              0 <= toIndex < |c.itemlist| && c.itemlist[toIndex] == destItem && !destItem.container
    ensures to == c && destItem == null ==> toIndex == INDEX_WHEREEVER || toIndex >= |c.itemlist|
    ensures to != c && index != MOVE_UP ==> 0 <= index < |c.itemlist| && index < c.maxSize && to == c.itemlist[index]
    ensures index == INDEX_WHEREEVER ==> to == c
    ensures index == INDEX_WHEREEVER && !AutoStacks(c, item, flags) ==> destItem == null
    ensures index == INDEX_WHEREEVER && AutoStacks(c, item, flags) ==>
              if destItem == null then forall x <- c.itemlist :: !HasSpace(x, item)
              else HasSpace(destItem, item)
  {
    hide LinkOk;
    if index == MOVE_UP {
      if c.parent != null {
        ghost var k := IndexIn(c, w);
        return c.parent, INDEX_WHEREEVER, null;
      }
      return c, INDEX_WHEREEVER, null;
    }
    Held(c, w);
    toIndex, destItem := index, null;
    if index == ADD_WHEREVER || index >= c.maxSize {
      toIndex := INDEX_WHEREEVER;
    }
    if toIndex != INDEX_WHEREEVER {
      if toIndex < |c.itemlist| {
        destItem := c.itemlist[toIndex];
      }
      if destItem != null && destItem.container {
        return destItem, INDEX_WHEREEVER, null;
      }
    }
    if !flags.ignoreAutoStack && item.ty.stackable && item.parent != c {
      if destItem != null && destItem.Equals(item) && destItem.count < destItem.StackSize() {
        return c, toIndex, destItem;
      }
      var n := 0;
      while n < |c.itemlist|
        invariant 0 <= n <= |c.itemlist|
        invariant forall i | 0 <= i < n :: !HasSpace(c.itemlist[i], item)
      {
        var listItem := c.itemlist[n];
        if listItem != item && listItem.Equals(item) && listItem.count < listItem.StackSize() {
          return c, n, listItem;
        }
        n := n + 1;
      }
    }
    return c, toIndex, destItem;
  }

  // ---------------------------------------------------------------------
  // The three steps of a move, and what each does to every count
  // ---------------------------------------------------------------------

  lemma RemainingIs(n: nat, m: nat)
    requires m <= n <= 255
    ensures Remaining(n, m) == n - m
  {
  }

  /** Takes m pieces off a stack, or a whole item, out of c. */
  method TakeOut(c: Item, item: Item, m: nat, ghost w: set<Item>)
    requires c in w && item in w && item in c.itemlist && Valid(w) && StacksOk(w)
    requires item.ty.stackable ==> m <= item.count
    modifies w`totalWeight, item`count, item`parent, c`itemlist
    ensures Valid(w) && StacksOk(w)
    ensures forall x, t | x in w :: CountOf(x.itemlist, t) ==
              old(CountOf(x.itemlist, t)) - (if x == c && t == item.ty then (if item.ty.stackable then m else item.count) else 0)
    ensures item.ty.stackable && m != old(item.count) ==>
              c.itemlist == old(c.itemlist) && item.parent == c && item.count == old(item.count) - m
    ensures !(item.ty.stackable && m != old(item.count)) ==>
              && item.parent == null && item.count == old(item.count)
              && (exists k | 0 <= k < |old(c.itemlist)| :: old(c.itemlist)[k] == item && c.itemlist == Without(old(c.itemlist), k))
              && item !in c.itemlist && |c.itemlist| == |old(c.itemlist)| - 1
    ensures forall y | y in old(c.itemlist) && y != item :: y in c.itemlist
  {
    hide LinkOk, Sum, Counts, TotalOk, Remaining, Without, Wrap;
    Held(c, w);
    ghost var list := c.itemlist;
    RemoveThing(c, item, m, w);
    if item.ty.stackable && m != old(item.count) {
      RemainingIs(old(item.count), m);
      ghost var k :| 0 <= k < |list| && list[k] == item;
      forall x, t | x in w
        ensures CountOf(x.itemlist, t) == old(CountOf(x.itemlist, t)) - if x == c && t == item.ty then m else 0
      {
        if x == c {
          ChangedCount(list, k, t, old(Counts(list, t)));
        } else {
          SoleParent(x, item, w);
          assert Counts(x.itemlist, t) == old(Counts(x.itemlist, t));
        }
      }
    } else {
      ghost var k :| 0 <= k < |list| && list[k] == item && c.itemlist == Without(list, k);
      ErasedItems(list, k);
      ErasedLength(list, k);
      forall t ensures CountOf(c.itemlist, t) == old(CountOf(c.itemlist, t)) - if t == item.ty then item.count else 0 {
        ErasedCount(list, k, t);
      }
    }
  }

  lemma ErasedLength(s: seq<Item>, k: nat)
    requires k < |s|
    ensures |Without(s, k)| == |s| - 1
  {
  }

  /** Grows a stack held by c by n pieces. */
  method Merge(c: Item, stack: Item, n: nat, roll: nat, ghost w: set<Item>)
    requires c in w && stack in w && stack in c.itemlist && Valid(w) && StacksOk(w)
    requires stack.ty.stackable && stack.count + n <= stack.ty.stackSize
    modifies w`totalWeight, stack`ty, stack`attributes, stack`count
    ensures Valid(w) && StacksOk(w)
    ensures stack.count == old(stack.count) + n && stack.ty == old(stack.ty)
    ensures forall x, t | x in w :: CountOf(x.itemlist, t) ==
              old(CountOf(x.itemlist, t)) + (if x == c && t == stack.ty then n else 0)
  {
    hide LinkOk, Sum, Counts, TotalOk, Wrap, AfterSetID;
    Held(c, w);
    UpdateThing(c, stack, stack.ty, stack.count + n, roll, w);
    ghost var k :| 0 <= k < |c.itemlist| && c.itemlist[k] == stack;
    forall x, t | x in w
      ensures CountOf(x.itemlist, t) == old(CountOf(x.itemlist, t)) + if x == c && t == stack.ty then n else 0
    {
      if x == c {
        ChangedCount(c.itemlist, k, t, old(Counts(c.itemlist, t)));
      } else {
        SoleParent(x, stack, w);
        assert Counts(x.itemlist, t) == old(Counts(x.itemlist, t));
      }
    }
  }

  /** Adds a root item to c; a position past the capacity is refused silently. */
  method PutIn(c: Item, index: int, item: Item, ghost w: set<Item>)
    requires c in w && item in w && Valid(w) && StacksOk(w) && c.container
    requires item.parent == null && item !in Ancestors(c, w)
    modifies w`rank, w`totalWeight, item`parent, c`itemlist
    ensures Valid(w) && StacksOk(w)
    ensures index < c.maxSize ==> item.parent == c && c.itemlist == [item] + old(c.itemlist)
    ensures index >= c.maxSize ==> item.parent == null && c.itemlist == old(c.itemlist)
    ensures forall x, t | x in w :: CountOf(x.itemlist, t) ==
              old(CountOf(x.itemlist, t)) + (if x == c && t == item.ty && index < c.maxSize then item.count else 0)
  {
    hide LinkOk, Sum, Counts, TotalOk, Wrap, Ancestors;
    ghost var list := c.itemlist;
    AddThing(c, index, item, w);
    if index < c.maxSize {
      assert c.itemlist == Inserted(list, 0, item);
      forall t ensures CountOf(c.itemlist, t) == old(CountOf(c.itemlist, t)) + if t == item.ty then item.count else 0 {
        InsertedCount(list, 0, item, t);
      }
    }
  }

  /** How many of m pieces the stack aimed at takes. */
  function Joins(item: Item, toItem: Item?, m: nat): nat
    reads item, toItem
  {
    if !item.Equals(toItem) || toItem.count > toItem.StackSize() then 0
    else if toItem.StackSize() - toItem.count < m then toItem.StackSize() - toItem.count
    else m
  }

  /** How many of m pieces arrive: those that would need a slot past the capacity do not. */
  function Arrives(c: Item, index: int, item: Item, toItem: Item?, m: nat): nat
    reads item, toItem
  {
    if index < c.maxSize then m else if item.ty.stackable then Joins(item, toItem, m) else 0
  }

  /** An empty item is inside of nothing's way: it is no ancestor of any other item. */
  lemma {:induction false} LeafIsNoAncestor(c: Item, x: Item, w: set<Item>)
    requires c in w && Links(w) && x != c && x.itemlist == []
    ensures x !in Ancestors(c, w)
    decreases Above(c, w)
  {
    assert LinkOk(c, w);
    if c.parent != null {
      AboveShrinks(c, w);
      LeafIsNoAncestor(c.parent, x, w);
    }
  }

  /** Puts pieces that left their stack into c: first onto `toItem` as far as it has room, the rest as
      a new stack. */
  method Deliver(c: Item, index: int, item: Item, toItem: Item?, m: nat, roll: nat, ghost w: set<Item>)
    returns (moveItem: Item?, ghost w1: set<Item>)
    requires c in w && item in w && c.container && Valid(w) && StacksOk(w)
    requires item.ty.stackable && m <= item.ty.stackSize
    requires toItem != null ==> toItem in c.itemlist && toItem != item
    modifies w
    ensures w <= w1 && fresh(w1 - w) && Valid(w1) && StacksOk(w1)
    ensures forall x, t | x in w :: CountOf(x.itemlist, t) ==
              old(CountOf(x.itemlist, t)) + (if x == c && t == old(item.ty) then old(Arrives(c, index, item, toItem, m)) else 0)
    ensures moveItem == null <==> m == 0 || old(item.Equals(toItem) && m <= toItem.StackSize() - toItem.count)
    ensures forall x | x in w && x != c :: x.itemlist == old(x.itemlist)
    ensures |c.itemlist| == |old(c.itemlist)| + if moveItem == null || index >= c.maxSize then 0 else 1
  {
    hide LinkOk, Sum, Counts, TotalOk, Wrap, Ancestors, CountOf;
    w1 := w;
    ghost var ty := item.ty;
    var rest := m;
    if item.Equals(toItem) {
      Held(c, w);
      var n := if toItem.StackSize() - toItem.count < m then toItem.StackSize() - toItem.count else m;
      Merge(c, toItem, n, roll, w);
      rest := m - n;
    }
    if rest > 0 {
      moveItem, w1 := NewStack(c, index, item, rest, w);
    } else {
      moveItem := null;
    }
  }

  /** A new stack of the same kind, put into c. */
  method NewStack(c: Item, index: int, item: Item, count: nat, ghost w: set<Item>)
    returns (moveItem: Item, ghost w1: set<Item>)
    requires c in w && item in w && c.container && Valid(w) && StacksOk(w)
    requires item.ty.stackable && count <= item.ty.stackSize
    modifies w`rank, w`totalWeight, c`itemlist
    ensures w <= w1 && fresh(w1 - w) && Valid(w1) && StacksOk(w1)
    ensures forall x, t | x in w :: CountOf(x.itemlist, t) ==
              old(CountOf(x.itemlist, t)) + (if x == c && t == item.ty && index < c.maxSize then count else 0)
    ensures |c.itemlist| == |old(c.itemlist)| + if index >= c.maxSize then 0 else 1
  {
    hide LinkOk, Sum, Counts, TotalOk, Wrap, Ancestors, CountOf;
    moveItem := new Item(item.ty, item.attributes, count, false, 0);
    WithFresh(w, moveItem);
    w1 := w + {moveItem};
    LeafIsNoAncestor(c, moveItem, w1);
    PutIn(c, index, moveItem, w1);
  }

  // ---------------------------------------------------------------------
  // Moving
  // ---------------------------------------------------------------------

  /** Where a move ends up: a plain item of the destination at a valid position, or no item at all. */
  ghost predicate Aimed(to: Item, index: int, toItem: Item?, w: set<Item>)
    reads to
  {
    && to in w && to.container && -1 <= index
    && (toItem != null ==> 0 <= index < |to.itemlist| && to.itemlist[index] == toItem)
    && (toItem == null ==> index < to.maxSize && (index == INDEX_WHEREEVER || index >= |to.itemlist|))
  }

  lemma AimIsNear(c: Item, index: int, item: Item, flags: Flags, w: set<Item>)
    requires c in w && Links(w) && c.container && index >= -1
    ensures AimAt(c, index, item, flags).to in w && AimAt(c, index, item, flags).to.container
    ensures AimAt(c, index, item, flags).index >= -1
    ensures AimAt(c, index, item, flags).toItem != null ==> AimAt(c, index, item, flags).toItem in w
  {
    hide LinkOk;
    Held(c, w);
    if index == MOVE_UP && c.parent != null { var _ := IndexIn(c, w); }
  }

  /** Where a move settles: from container to container until one keeps the item, but no more than so many steps. */
  ghost function SettlesAt(c: Item, index: int, item: Item, flags: Flags, floorN: nat, w: set<Item>): (Aim, Flags)
    requires c in w && Links(w) && c.container && index >= -1 && floorN < MAP_MAX_LAYERS
    reads w, item
    decreases MAP_MAX_LAYERS - floorN
  {
    Held(c, w);
    AimIsNear(c, index, item, flags, w);
    var aim := AimAt(c, index, item, flags);
    if aim.to == c then (aim, flags)
    else if floorN + 1 >= MAP_MAX_LAYERS then (aim, NO_FLAGS)
    else SettlesAt(aim.to, aim.index, item, NO_FLAGS, floorN + 1, w)
  }

  /** Follows queryDestination until it settles, or gives up after MAP_MAX_LAYERS steps. */
  method Resolve(to0: Item, index0: int, item: Item, flags0: Flags, ghost w: set<Item>)
    returns (to: Item, index: int, toItem: Item?, flags: Flags)
    requires to0 in w && Links(w) && StacksOk(w) && to0.container && index0 >= -1
    ensures Aimed(to, index, toItem, w)
    ensures Aim(to, index, toItem) == old(SettlesAt(to0, index0, item, flags0, 0, w)).0
    ensures flags == flags0 || flags == NO_FLAGS
  {
    hide LinkOk, AimAt;
    to, flags := to0, flags0;
    var floorN := 0;
    var sub;
    sub, index, toItem := QueryDestination(to, index0, item, flags, w);
    while sub != to
      invariant 0 <= floorN < MAP_MAX_LAYERS && to in w && sub in w && sub.container
      invariant flags == flags0 || flags == NO_FLAGS
      invariant sub != to ==> index == INDEX_WHEREEVER && toItem == null
      invariant sub == to ==> Aimed(to, index, toItem, w)
      invariant old(SettlesAt(to0, index0, item, flags0, 0, w)) == Onward(to, Aim(sub, index, toItem), item, flags, floorN, w)
      decreases MAP_MAX_LAYERS - floorN
    {
      to, flags := sub, NO_FLAGS;
      floorN := floorN + 1;
      if floorN >= MAP_MAX_LAYERS {
        break;
      }
      sub, index, toItem := QueryDestination(to, index, item, flags, w);
    }
    Held(to, w);
  }

  /** The way on from a container whose own answer is known. */
  ghost function Onward(c: Item, aim: Aim, item: Item, flags: Flags, floorN: nat, w: set<Item>): (Aim, Flags)
    requires aim.to in w && Links(w) && aim.to.container && aim.index >= -1 && floorN < MAP_MAX_LAYERS
    reads w, item
  {
    if aim.to == c then (aim, flags)
    else if floorN + 1 >= MAP_MAX_LAYERS then (aim, NO_FLAGS)
    else SettlesAt(aim.to, aim.index, item, NO_FLAGS, floorN + 1, w)
  }

  /** The item being traded must not receive the item, nor may anything inside it. */
  method InsideTraded(to: Item, tradeItem: Item, ghost w: set<Item>) returns (inside: bool)
    requires to in w && Links(w)
    ensures inside <==> tradeItem in Ancestors(to, w)
  {
    hide LinkOk;
    if to == tradeItem {
      return true;
    }
    var tmp := to.parent;
    ghost var last := to;
    while tmp != null
      invariant last in w && tmp == last.parent && tradeItem != last
      invariant tradeItem in Ancestors(to, w) <==> tradeItem in Ancestors(last, w)
      decreases tmp != null, Above(last, w)
    {
      ghost var k := IndexIn(last, w);
      AboveShrinks(last, w);
      if tmp == tradeItem {
        assert tmp in Ancestors(last, w);
        return true;
      }
      last := tmp;
      tmp := tmp.parent;
    }
    return false;
  }

  /** A checked move that found no obstacle leaves room for what it moves. */
  lemma RoomForMove(to: Item, index: int, item: Item, toItem: Item?, count: nat, m: nat, flags: Flags,
                    carried: ReturnValue, w: set<Item>)
    requires Links(w) && Aimed(to, index, toItem, w) && !flags.noLimit && !flags.childIsOwner
    requires AddVerdict(to, index, item, flags, carried, w) == NOERROR
    requires 0 < m <= MaxCount(to, index, item, count, flags, carried, w)
    ensures FreeSlots(to) > 0 || (item.ty.stackable && item.Equals(toItem) && m <= toItem.StackSize() - toItem.count)
  {
    hide LinkOk, Ancestors, Spare;
    if FreeSlots(to) == 0 {
      assert Times(FreeSlots(to), item.StackSize()) == 0;
      Held(to, w);
    }
  }

  /** An item is the container or something the container is inside of. */
  ghost predicate Inside(x: Item, c: Item, w: set<Item>)
    reads w
  {
    c in w && Links(w) && x in Ancestors(c, w)
  }

  ghost predicate Fits(item: Item, toItem: Item?, m: nat)
    reads item, toItem
  {
    item.ty.stackable && item.Equals(toItem) && m <= toItem.StackSize() - toItem.count
  }

  /** Takes m pieces out of `from` and puts them into `to`: the part of a move after every check. */
  method Transfer(from: Item, to: Item, index: int, item: Item, toItem: Item?, m: nat, roll: nat, ghost w: set<Item>)
    returns (moveItem: Item?, ghost w1: set<Item>)
    requires from in w && item in w && Valid(w) && StacksOk(w) && Aimed(to, index, toItem, w)
    requires item in from.itemlist && item != toItem && !Inside(item, to, w)
    requires if item.ty.stackable then m <= item.count else m == item.count
    modifies w
    ensures w <= w1 && fresh(w1 - w) && Valid(w1) && StacksOk(w1)
    ensures forall x, t | x in w :: CountOf(x.itemlist, t) == old(CountOf(x.itemlist, t))
              - (if x == from && t == old(item.ty) then m else 0)
              + (if x == to && t == old(item.ty) then old(Arrives(to, index, item, toItem, m)) else 0)
    ensures forall x | x in w && x != to :: |x.itemlist| <= |old(x.itemlist)|
    ensures |to.itemlist| <= |old(to.itemlist)| + if old(Fits(item, toItem, m)) then 0 else 1
  {
    hide LinkOk, Sum, Counts, TotalOk, Wrap, CountOf, Ancestors;
    Rerank(to, item, w);
    TakeOut(from, item, m, w);
    w1 := w;
    if item.ty.stackable {
      moveItem, w1 := Deliver(to, index, item, toItem, m, roll, w);
    } else {
      moveItem := item;
      PutIn(to, index, item, w);
    }
  }

  /** A move may go ahead with m pieces: they are there to be taken, and `to` has a place for them. */
  ghost predicate MayGo(from: Item, to: Item, index: int, item: Item, toItem: Item?, count: nat, noLimit: bool,
                        tradeItem: Item?, m: nat, maxQueryCount: nat, w: set<Item>)
    reads w, from, item, toItem
  {
    && to in w && Links(w) && item in from.itemlist && item != toItem && 0 < m && item !in Ancestors(to, w)
    && (item.ty.stackable ==> m <= item.count && m == (if count < maxQueryCount then count else maxQueryCount))
    && (!noLimit || WithinCapacity(w) ==> index < to.maxSize || Fits(item, toItem, m))
    && (noLimit || |to.itemlist| < to.maxSize || Fits(item, toItem, m))
    && (tradeItem != null ==> tradeItem !in Ancestors(to, w))
  }

  /** Everything a move checks before it touches anything. */
  method CheckMove(from: Item, to0: Item, index0: int, item: Item, count: nat, flags0: Flags, tradeItem: Item?,
                   carried: ReturnValue, ghost w: set<Item>)
    returns (ret: ReturnValue, go: bool, to: Item, index: int, toItem: Item?, m: nat, retMaxCount: ReturnValue, maxQueryCount: nat)
    requires from in w && to0 in w && item in w && from.container && to0.container
    requires Links(w) && Valid(w) && StacksOk(w) && index0 >= -1 && !flags0.childIsOwner
    ensures Aimed(to, index, toItem, w) && to in w
    ensures Aim(to, index, toItem) == old(SettlesAt(to0, index0, item, flags0, 0, w)).0 && (toItem != null ==> toItem in w)
    ensures go ==> ret == NOERROR && MayGo(from, to, index, item, toItem, count, flags0.noLimit, tradeItem, m, maxQueryCount, w)
    ensures go && item.ty.stackable && maxQueryCount < count ==> retMaxCount == CONTAINERNOTENOUGHROOM
    ensures !go && ret == NOERROR <==> item == toItem
  {
    LinksOf(w);
    hide *;
    var flags;
    to, index, toItem, flags := Resolve(to0, index0, item, flags0, w);
    AimedAt(to, index, toItem, w);
    if item == toItem {
      return NOERROR, false, to, index, toItem, 0, NOERROR, 0;
    }
    ret, go, m, retMaxCount, maxQueryCount := CheckAt(from, to, index, item, toItem, count, flags, tradeItem, carried, w);
    if go {
      LessLimited(from, to, index, item, toItem, count, flags, flags0, tradeItem, m, maxQueryCount, w);
    }
  }

  lemma LessLimited(from: Item, to: Item, index: int, item: Item, toItem: Item?, count: nat, flags: Flags, flags0: Flags,
                    tradeItem: Item?, m: nat, maxQueryCount: nat, w: set<Item>)
    requires flags == flags0 || flags == NO_FLAGS
    requires MayGo(from, to, index, item, toItem, count, flags.noLimit, tradeItem, m, maxQueryCount, w)
    ensures MayGo(from, to, index, item, toItem, count, flags0.noLimit, tradeItem, m, maxQueryCount, w)
  {
    hide LinkOk, Ancestors;
  }

  /** The checks at the place where a move has settled. */
  method CheckAt(from: Item, to: Item, index: int, item: Item, toItem: Item?, count: nat, flags: Flags, tradeItem: Item?,
                 carried: ReturnValue, ghost w: set<Item>)
    returns (ret: ReturnValue, go: bool, m: nat, retMaxCount: ReturnValue, maxQueryCount: nat)
    requires from in w && to in w && item in w && Valid(w) && !flags.childIsOwner && index >= -1
    requires Aimed(to, index, toItem, w) && item != toItem
    ensures go ==> ret == NOERROR && MayGo(from, to, index, item, toItem, count, flags.noLimit, tradeItem, m, maxQueryCount, w)
    ensures go && item.ty.stackable && maxQueryCount < count ==> retMaxCount == CONTAINERNOTENOUGHROOM
    ensures !go ==> ret != NOERROR
  {
    hide LinkOk, TotalOk, Ancestors, MaxCount, AddVerdict, Aimed, WithinCapacity, Fits;
    m, retMaxCount, maxQueryCount, go := 0, NOERROR, 0, false;
    ret := QueryAdd(to, index, item, flags, carried, w);
    if ret != NOERROR {
      return;
    }
    retMaxCount, maxQueryCount := QueryMaxCount(to, index, item, count, flags, carried, w);
    if retMaxCount != NOERROR && maxQueryCount == 0 {
      ret := retMaxCount;
      return;
    }
    m := if item.ty.stackable then (if count < maxQueryCount then count else maxQueryCount) else maxQueryCount;
    ret := QueryRemove(from, item, m, flags);
    if ret != NOERROR {
      return;
    }
    if tradeItem != null {
      var inside := InsideTraded(to, tradeItem, w);
      if inside {
        ret := NOTENOUGHROOM;
        return;
      }
    }
    go := true;
    PlaceForMove(to, index, item, toItem, count, m, flags, carried, w);
    NoLimitMaxCount(to, index, item, count, flags, carried, w);
  }

  lemma AimedAt(to: Item, index: int, toItem: Item?, w: set<Item>)
    requires Aimed(to, index, toItem, w)
    ensures to in w && to.container && index >= -1 && (toItem != null ==> toItem in to.itemlist)
  {
  }

  lemma NoLimitMaxCount(to: Item, index: int, item: Item, count: nat, flags: Flags, carried: ReturnValue, w: set<Item>)
    requires to in w && Links(w) && index >= -1
    ensures flags.noLimit ==> MaxCount(to, index, item, count, flags, carried, w) >= count
  {
  }

  /** No container has grown beyond its capacity. */
  twostate predicate Capped(w: set<Item>)
    reads w
  {
    forall x | x in w :: |x.itemlist| <= |old(x.itemlist)| || |x.itemlist| <= x.maxSize
  }

  /** The part of a move after every check, if it goes ahead, and the item to report. */
  method CarryOut(go: bool, from: Item, to: Item, index: int, item: Item, toItem: Item?, count: nat, ghost noLimit: bool,
                  ghost tradeItem: Item?, m: nat, maxQueryCount: nat, roll: nat, ghost w: set<Item>)
    returns (moveItem: Item?, ghost moved: nat, ghost arrived: nat, ghost w1: set<Item>)
    requires from in w && item in w && Valid(w) && StacksOk(w) && Aimed(to, index, toItem, w)
    requires go ==> MayGo(from, to, index, item, toItem, count, noLimit, tradeItem, m, maxQueryCount, w)
    modifies w
    ensures w <= w1 && fresh(w1 - w) && Valid(w1) && StacksOk(w1)
    ensures moved == if !go then 0 else if old(item.ty.stackable) then m else old(item.count)
    ensures arrived == old(Arrives(to, index, item, toItem, moved)) <= moved && (index < to.maxSize ==> arrived == moved)
    ensures forall x, t | x in w :: CountOf(x.itemlist, t) == old(CountOf(x.itemlist, t))
              - (if x == from && t == old(item.ty) then moved else 0)
              + (if x == to && t == old(item.ty) then arrived else 0)
    ensures !noLimit || old(WithinCapacity(w)) ==> arrived == moved
    ensures !noLimit ==> Capped(w)
    ensures go ==> item != toItem && moved <= old(item.count)
    ensures go && old(item.ty.stackable) ==> m == if count < maxQueryCount then count else maxQueryCount
    ensures go && tradeItem != null ==> !old(Inside(tradeItem, to, w))
  {
    hide LinkOk, TotalOk, Valid, Links, CountOf, Inside, Fits, Arrives, StacksOk, Aimed, MayGo, WithinCapacity;
    moveItem, moved, w1 := null, 0, w;
    NoneArrive(to, index, item, toItem);
    arrived := 0;
    if go {
      Going(from, to, index, item, toItem, count, noLimit, tradeItem, m, maxQueryCount, w);
      var n := if item.ty.stackable then m else item.count;
      AllArrive(to, index, item, toItem, m, n);
      moved, arrived := n, Arrives(to, index, item, toItem, n);
      moveItem, w1 := Transfer(from, to, index, item, toItem, n, roll, w);
      if moveItem == null {
        moveItem := item;
      }
    }
  }

  lemma NoneArrive(to: Item, index: int, item: Item, toItem: Item?)
    ensures Arrives(to, index, item, toItem, 0) == 0
  {
  }

  /** The whole move between containers. `moved` pieces leave `from` and `arrived` of them get into the container aimed
      at, nothing else changes any count; `carried` is what carries that container's topmost one has to say. All
      arrive, but for an overfull container and no limit: there the pieces that do not fit the stack aimed at are
      lost. */
  method InternalMoveItem(from: Item, to0: Item, index0: int, item: Item, count: nat, flags0: Flags, tradeItem: Item?,
                          carried: ReturnValue, roll: nat, ghost w: set<Item>)
    returns (ret: ReturnValue, moveItem: Item?, ghost aim: Aim, ghost moved: nat, ghost arrived: nat, ghost w1: set<Item>)
    requires from in w && to0 in w && item in w && from.container && to0.container
    requires Links(w) && Valid(w) && StacksOk(w) && index0 >= -1 && !flags0.childIsOwner
    modifies w
    ensures w <= w1 && fresh(w1 - w) && Valid(w1) && StacksOk(w1)
    ensures aim.to in w && (aim.toItem != null ==> aim.toItem in w) && aim == old(SettlesAt(to0, index0, item, flags0, 0, w)).0
    ensures forall x, t | x in w :: CountOf(x.itemlist, t) == old(CountOf(x.itemlist, t))
              - (if x == from && t == old(item.ty) then moved else 0)
              + (if x == aim.to && t == old(item.ty) then arrived else 0)
    ensures arrived <= moved && (aim.index < aim.to.maxSize ==> arrived == moved)
    ensures !flags0.noLimit || old(WithinCapacity(w)) ==> arrived == moved
    ensures item == aim.toItem ==> ret == NOERROR && moved == 0
    ensures item != aim.toItem && ret == NOERROR ==> moved == if old(item.ty.stackable) then count else old(item.count)
    ensures ret != NOERROR && moved > 0 ==> ret == CONTAINERNOTENOUGHROOM && old(item.ty.stackable) && moved < count
    ensures moved <= old(item.count)
    ensures !flags0.noLimit ==> Capped(w)
    ensures tradeItem != null && moved > 0 ==> !old(Inside(tradeItem, aim.to, w))
  {
    LinksOf(w);
    hide *;
    var to, go, index, toItem, m, retMaxCount, maxQueryCount;
    ret, go, to, index, toItem, m, retMaxCount, maxQueryCount :=
      CheckMove(from, to0, index0, item, count, flags0, tradeItem, carried, w);
    forall x, t | x in w ensures CountOf(x.itemlist, t) == old(CountOf(x.itemlist, t)) {
      assert x.itemlist == old(x.itemlist);
    }
    var stackable := item.ty.stackable;
    aim := Aim(to, index, toItem);
    moveItem, moved, arrived, w1 := CarryOut(go, from, to, index, item, toItem, count, flags0.noLimit, tradeItem, m, maxQueryCount, roll, w);
    // not everything could be moved
    if go && stackable && maxQueryCount < count {
      ret := retMaxCount;
    }
  }

  lemma LinksOf(w: set<Item>)
    requires Valid(w)
    ensures Links(w)
  {
  }

  lemma Going(from: Item, to: Item, index: int, item: Item, toItem: Item?, count: nat, noLimit: bool,
              tradeItem: Item?, m: nat, maxQueryCount: nat, w: set<Item>)
    requires MayGo(from, to, index, item, toItem, count, noLimit, tradeItem, m, maxQueryCount, w)
    ensures to in w && item in from.itemlist && item != toItem && 0 < m && !Inside(item, to, w)
    ensures item.ty.stackable ==> m <= item.count && m == if count < maxQueryCount then count else maxQueryCount
    ensures !noLimit || WithinCapacity(w) ==> index < to.maxSize || Fits(item, toItem, m)
    ensures noLimit || |to.itemlist| < to.maxSize || Fits(item, toItem, m)
    ensures tradeItem != null ==> !Inside(tradeItem, to, w)
  {
    hide LinkOk, Fits, Ancestors;
  }

  lemma AllArrive(to: Item, index: int, item: Item, toItem: Item?, m: nat, moved: nat)
    requires moved == if item.ty.stackable then m else item.count
    ensures index < to.maxSize || Fits(item, toItem, m) ==> Arrives(to, index, item, toItem, moved) == moved
    ensures Fits(item, toItem, m) == Fits(item, toItem, moved)
    ensures Arrives(to, index, item, toItem, moved) <= moved
  {
  }

  lemma PlaceForMove(to: Item, index: int, item: Item, toItem: Item?, count: nat, m: nat, flags: Flags,
                     carried: ReturnValue, w: set<Item>)
    requires Links(w) && Aimed(to, index, toItem, w) && !flags.childIsOwner
    requires AddVerdict(to, index, item, flags, carried, w) == NOERROR
    requires 0 < m <= MaxCount(to, index, item, count, flags, carried, w)
    ensures item !in Ancestors(to, w)
    ensures !flags.noLimit || WithinCapacity(w) ==> index < to.maxSize || Fits(item, toItem, m)
    ensures flags.noLimit || |to.itemlist| < to.maxSize || Fits(item, toItem, m)
  {
    hide LinkOk, Ancestors, MaxCount;
    if !flags.noLimit {
      RoomForMove(to, index, item, toItem, count, m, flags, carried, w);
    }
  }

  // ---------------------------------------------------------------------
  // Adding a new item anywhere in a container
  // ---------------------------------------------------------------------

  /** The room a stack has for more of a kind. */
  function Room(x: Item, ty: ItemType, attributes: Attributes): nat
    reads x`ty, x`attributes, x`count
  {
    if x.ty == ty && x.attributes == attributes && x.count < x.StackSize() then x.StackSize() - x.count else 0
  }

  function Rooms(s: seq<Item>, ty: ItemType, attributes: Attributes): (r: seq<int>)
    reads s`ty, s`attributes, s`count
    ensures |r| == |s| && forall i | 0 <= i < |s| :: r[i] == Room(s[i], ty, attributes)
  {
    if s == [] then [] else [Room(s[0], ty, attributes)] + Rooms(s[1..], ty, attributes)
  }

  function RoomIn(s: seq<Item>, ty: ItemType, attributes: Attributes): int
    reads s`ty, s`attributes, s`count
  {
    Sum(Rooms(s, ty, attributes))
  }

  lemma {:induction false} SpareIsRoom(s: seq<Item>, item: Item)
    requires item !in s
    ensures Spare(s, item) == RoomIn(s, item.ty, item.attributes)
  {
    if s != [] {
      SpareIsRoom(s[1..], item);
    }
  }

  lemma RoomsAre(s: seq<Item>, ty: ItemType, attributes: Attributes, r: seq<int>)
    requires |r| == |s| && forall i | 0 <= i < |s| :: r[i] == Room(s[i], ty, attributes)
    ensures Rooms(s, ty, attributes) == r
  {
  }

  /** Grows a stack by n pieces; filled up, it takes its room away from what the list has left. */
  method FillUp(c: Item, stack: Item, n: nat, roll: nat, ghost w: set<Item>)
    requires c in w && stack in w && stack in c.itemlist && Valid(w) && StacksOk(w)
    requires stack.ty.stackable && stack.count + n <= stack.ty.stackSize
    modifies w`totalWeight, stack`ty, stack`attributes, stack`count
    ensures Valid(w) && StacksOk(w)
    ensures forall x, t | x in w :: CountOf(x.itemlist, t) ==
              old(CountOf(x.itemlist, t)) + (if x == c && t == old(stack.ty) then n else 0)
    ensures n > 0 && old(stack.count) + n == old(stack.ty.stackSize) ==>
              RoomIn(c.itemlist, old(stack.ty), old(stack.attributes))
                == old(RoomIn(c.itemlist, stack.ty, stack.attributes)) - n
  {
    hide LinkOk, Sum, TotalOk, Wrap, CountOf;
    ghost var (ty, attributes) := (stack.ty, stack.attributes);
    ghost var before := Rooms(c.itemlist, ty, attributes);
    Held(c, w);
    ghost var k :| 0 <= k < |c.itemlist| && c.itemlist[k] == stack;
    Merge(c, stack, n, roll, w);
    if n > 0 && stack.count == ty.stackSize {
      RoomsAre(c.itemlist, ty, attributes, before[k := 0]);
      SumUpdate(before, k, 0);
    }
  }

  lemma NoSpare(s: seq<Item>, item: Item)
    requires forall x <- s :: !HasSpace(x, item)
    ensures Spare(s, item) == 0
  {
  }

  /** There is room for all of a stackable item, in free slots and in stacks it can join. */
  ghost predicate Placeable(c: Item, item: Item, flags: Flags, carried: ReturnValue, w: set<Item>)
    requires c in w && Links(w)
    reads w, item
  {
    && AddVerdict(c, 0, item, flags, carried, w) == NOERROR
    && MaxCount(c, INDEX_WHEREEVER, item, item.count, flags, carried, w) >= item.count
  }

  /** What was checked before the first pieces went onto a stack still holds for the rest. */
  lemma RestIsPlaceable(c: Item, rest: Item, flags: Flags, carried: ReturnValue, w: set<Item>)
    requires c in w && Links(w) && rest !in c.itemlist
    requires rest.ty.stackable && rest.ty.pickupable && rest.itemlist == [] && rest != c && carried == NOERROR
    requires flags.noLimit || rest.count <= Times(FreeSlots(c), rest.StackSize()) + RoomIn(c.itemlist, rest.ty, rest.attributes)
    ensures Placeable(c, rest, flags, carried, w)
  {
    hide LinkOk, Ancestors, RoomIn, Spare, Times;
    LeafIsNoAncestor(c, rest, w);
    SpareIsRoom(c.itemlist, rest);
  }

  /** The checks in front of adding an item anywhere in c. */
  method CheckAdd(c: Item, item: Item, flags: Flags, carried: ReturnValue, ghost w: set<Item>)
    returns (ret: ReturnValue, toItem: Item?, maxQueryCount: nat)
    requires c in w && item in w && c.container && Valid(w) && StacksOk(w) && !flags.childIsOwner && item.parent == null
    ensures ret == NOERROR ==>
              && item !in Ancestors(c, w) && item.ty.pickupable && carried == NOERROR
              && (item.ty.stackable && !flags.noLimit ==>
                    maxQueryCount == Times(FreeSlots(c), item.StackSize()) + RoomIn(c.itemlist, item.ty, item.attributes))
              && (item.ty.stackable ==> item.count <= maxQueryCount)
    ensures toItem != null ==> toItem in c.itemlist && HasSpace(toItem, item) && !flags.ignoreAutoStack && item.ty.stackable && item.Equals(toItem)
    ensures ret == NOERROR && toItem == null && !flags.noLimit ==> |c.itemlist| < c.maxSize
    ensures item.ty.stackable && !flags.ignoreAutoStack && item.count > 0 ==>
              (ret == NOERROR <==> Placeable(c, item, flags, carried, w))
  {
    hide LinkOk, TotalOk, Ancestors, Spare, Times, StacksOk, RoomIn;
    var to, index;
    RootInNoList(item, w);
    SpareIsRoom(c.itemlist, item);
    maxQueryCount := 0;
    to, index, toItem := QueryDestination(c, INDEX_WHEREEVER, item, flags, w);
    ret := QueryAdd(c, index, item, flags, carried, w);
    ghost var added := ret;
    if ret == NOERROR {
      ret, maxQueryCount := QueryMaxCount(c, INDEX_WHEREEVER, item, item.count, flags, carried, w);
    }
    if toItem == null && AutoStacks(c, item, flags) {
      NoSpare(c.itemlist, item);
      NoFreeSlots(c, item);
    }
  }

  lemma NoFreeSlots(c: Item, item: Item)
    ensures FreeSlots(c) == 0 ==> Times(FreeSlots(c), item.StackSize()) == 0
  {
  }

  /** Makes the rest of a stack, a new item of the same kind that fits into c. */
  method Remainder(c: Item, ty: ItemType, attributes: Attributes, count: nat, flags: Flags, carried: ReturnValue, ghost w: set<Item>)
    returns (rest: Item, ghost w1: set<Item>)
    requires c in w && c.container && Valid(w) && StacksOk(w) && carried == NOERROR
    requires ty.stackable && ty.pickupable && !ty.fluid && count <= ty.stackSize <= 255
    requires flags.noLimit || count <= Times(FreeSlots(c), ty.stackSize) + RoomIn(c.itemlist, ty, attributes)
    ensures fresh(rest) && w1 == w + {rest} && Valid(w1) && StacksOk(w1)
    ensures rest.ty == ty && rest.count == count && rest.parent == null && Placeable(c, rest, flags, carried, w1)
  {
    hide LinkOk, TotalOk, Ancestors, Times, RoomIn, Placeable;
    Held(c, w);
    rest := new Item(ty, attributes, count, false, 0);
    WithFresh(w, rest);
    w1 := w + {rest};
    RestIsPlaceable(c, rest, flags, carried, w1);
  }

  /** Adds a new item anywhere in c. A stack is spread over every stack it can join before a slot is
      used; all of it is placed or none of it. */
  method InternalAddItem(c: Item, item: Item, flags: Flags, test: bool, carried: ReturnValue, roll: nat, ghost w: set<Item>)
    returns (ret: ReturnValue, remainderCount: nat, ghost w1: set<Item>)
    requires c in w && item in w && c.container && Valid(w) && StacksOk(w) && !flags.childIsOwner && item.parent == null
    modifies w
    ensures w <= w1 && fresh(w1 - w) && Valid(w1) && StacksOk(w1)
    ensures remainderCount == 0
    ensures !flags.noLimit ==> |c.itemlist| <= |old(c.itemlist)| || |c.itemlist| <= c.maxSize
    ensures forall x, t | x in w :: CountOf(x.itemlist, t) == old(CountOf(x.itemlist, t))
              + (if ret == NOERROR && !test && x == c && t == old(item.ty) then old(item.count) else 0)
    ensures old(item.ty.stackable && item.count > 0) && !flags.ignoreAutoStack ==>
              (ret == NOERROR <==> old(Placeable(c, item, flags, carried, w)))
    decreases item.count, 1
  {
    hide LinkOk, TotalOk, Ancestors, Times, RoomIn, Placeable, CountOf, HasSpace, StacksOk, Valid;
    remainderCount, w1 := 0, w;
    var toItem, maxQueryCount;
    ret, toItem, maxQueryCount := CheckAdd(c, item, flags, carried, w);
    if ret != NOERROR || test {
      return;
    }
    if item.ty.stackable && item.Equals(toItem) {
      var m := if item.count < maxQueryCount then item.count else maxQueryCount;
      remainderCount, w1 := AddToStack(c, item, toItem, m, flags, carried, roll, w);
    } else {
      PutIn(c, INDEX_WHEREEVER, item, w);
    }
  }

  /** The stackable branch: onto the stack that was found, and the rest anywhere. */
  method AddToStack(c: Item, item: Item, toItem: Item, m: nat, flags: Flags, carried: ReturnValue, roll: nat, ghost w: set<Item>)
    returns (remainderCount: nat, ghost w1: set<Item>)
    requires c in w && item in w && c.container && Valid(w) && StacksOk(w) && !flags.childIsOwner && item.parent == null
    requires carried == NOERROR && item.ty.stackable && item.ty.pickupable && m == item.count
    requires toItem in c.itemlist && HasSpace(toItem, item) && !flags.ignoreAutoStack
    requires flags.noLimit || m <= Times(FreeSlots(c), item.StackSize()) + RoomIn(c.itemlist, item.ty, item.attributes)
    modifies w
    ensures w <= w1 && fresh(w1 - w) && Valid(w1) && StacksOk(w1) && remainderCount == 0
    ensures !flags.noLimit ==> |c.itemlist| <= |old(c.itemlist)| || |c.itemlist| <= c.maxSize
    ensures forall x, t | x in w :: CountOf(x.itemlist, t) ==
              old(CountOf(x.itemlist, t)) + (if x == c && t == old(item.ty) then m else 0)
    decreases item.count, 0
  {
    hide LinkOk, TotalOk, Ancestors, Times, RoomIn, Placeable, CountOf;
    remainderCount, w1 := 0, w;
    var space := toItem.StackSize() - toItem.count;
    var n := if space < m then space else m;
    var count := m - n;
    Held(c, w);
    ghost var free := FreeSlots(c);
    FillUp(c, toItem, n, roll, w);
    if count > 0 {
      var remainderItem;
      remainderItem, w1 := Remainder(c, item.ty, item.attributes, count, flags, carried, w);
      var r, inner;
      r, inner, w1 := InternalAddItem(c, remainderItem, flags, false, carried, roll, w1);
      if r != NOERROR {
        // here the rest would be reported as not placed
        assert false;
      }
    }
  }
}
