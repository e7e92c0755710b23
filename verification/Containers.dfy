/** The item containment forest: parent pointers, child lists and a cached weight per container. */
module Containers {

  import opened Basics

  const WORD := 0x1_0000_0000
  const INDEX_WHEREEVER := -1

  const ATTR_WEIGHT := 0x200
  const ATTR_DURATION := 0x2_0000
  const ATTR_DECAYSTATE := 0x4_0000
  const ATTR_CORPSEOWNER := 0x8_0000
  const ATTR_CHARGES := 0x10_0000
  const ATTR_FLUIDTYPE := 0x20_0000
  const DECAYING_FALSE := 0

  /** One row of the item type table. Two items have the same id exactly when their rows are equal. */
  datatype ItemType = ItemType(id: nat, stackable: bool, stackSize: nat, weight: nat, fluid: bool, charges: nat,
                               pickupable: bool, moveable: bool, decayTo: int, stopTime: bool,
                               decayTimeMin: nat, decayTimeMax: nat)

  datatype Value = Num(n: int) | Text(s: string)

  type Attributes = map<nat, Value>

  datatype Flags = Flags(noLimit: bool, childIsOwner: bool, ignoreNotMoveable: bool, ignoreAutoStack: bool)

  datatype ReturnValue = NOERROR | NOTPOSSIBLE | CANNOTPICKUP | THISISIMPOSSIBLE | CONTAINERNOTENOUGHROOM
                       | NOTMOVEABLE | NOTENOUGHROOM | NOTENOUGHCAPACITY

  // ---------------------------------------------------------------------
  // Sums modulo 2^32
  // ---------------------------------------------------------------------

  /** 32-bit unsigned arithmetic. */
  function Wrap(v: int): (r: nat)
    ensures r < WORD
  {
    v % WORD
  }

  lemma WrapSum(a: int, b: int, x: int, y: int)
    requires Wrap(a) == Wrap(x) && Wrap(b) == Wrap(y)
    ensures Wrap(a + b) == Wrap(x + y)
  {
  }

  lemma WrapTotal(own: int, total: int, sum: int, held: int)
    requires total == Wrap(sum) && Wrap(sum) == Wrap(held)
    ensures Wrap(own + total) == Wrap(own + held)
  {
  }

  lemma WrapShift(total: int, sum: int, diff: int)
    requires total == Wrap(sum)
    ensures Wrap(total + diff) == Wrap(sum + diff)
  {
  }

  lemma ShiftWeight(own: int, total: int, diff: int)
    ensures Wrap(own + Wrap(total + diff)) == Wrap(Wrap(own + total) + diff)
  {
  }

  /** When one weight of a list shifts, the total the list should have shifts with it. */
  lemma ShiftTotal(total: int, before: seq<int>, k: nat, now: int, diff: int)
    requires k < |before| && total == Wrap(Sum(before)) && now == Wrap(before[k] + diff)
    ensures Wrap(total + diff) == Wrap(Sum(before[k := now]))
  {
    SumUpdate(before, k, now);
    WrapSum(Sum(before) - before[k], now, Sum(before) - before[k], before[k] + diff);
    WrapSum(total, diff, Sum(before), diff);
  }

  // ---------------------------------------------------------------------
  // Items
  // ---------------------------------------------------------------------

  class Item {
    const container: bool
    const maxSize: nat
    var ty: ItemType
    var attributes: Attributes
    var count: nat
    var parent: Item?
    var itemlist: seq<Item>
    var totalWeight: nat
    /** Larger than the rank of everything held; exists only if no item holds itself. */
    ghost var rank: nat

    constructor (ty: ItemType, attributes: Attributes, count: nat, container: bool, maxSize: nat)
      ensures this.ty == ty && this.attributes == attributes && this.count == count
      ensures this.container == container && this.maxSize == maxSize
      ensures parent == null && itemlist == [] && totalWeight == 0 && rank == 0
    {
      this.ty, this.attributes, this.count := ty, attributes, count;
      this.container, this.maxSize := container, maxSize;
      parent, itemlist, totalWeight, rank := null, [], 0, 0;
    }

    function BaseWeight(): nat
      reads `ty, `attributes
    {
      if ATTR_WEIGHT in attributes && attributes[ATTR_WEIGHT].Num? then Wrap(attributes[ATTR_WEIGHT].n)
      else Wrap(ty.weight)
    }

    /** The weight of the item itself, without what it holds. */
    function OwnWeight(): (r: nat)
      reads `ty, `attributes, `count
      ensures r < WORD
    {
      if ty.stackable then Wrap(BaseWeight() * if count < 1 then 1 else count) else BaseWeight()
    }

    function GetWeight(): nat
      reads `ty, `attributes, `count, `totalWeight
    {
      if container then Wrap(OwnWeight() + totalWeight) else OwnWeight()
    }

    /** Changing the type: decay state is dropped or restarted, the corpse owner is forgotten.
        `roll` is the random duration, in seconds, of a type with a range of decay times. */
    method SetID(newTy: ItemType, roll: nat)
      modifies `ty, `attributes
      ensures ty == newTy && attributes == AfterSetID(old(attributes), old(ty), newTy, roll)
    {
      var prevTy := ty;
      ty := newTy;
      var newDuration := NewDuration(newTy, roll);
      if newDuration == 0 && !newTy.stopTime && newTy.decayTo < 0 {
        attributes := attributes - {ATTR_DECAYSTATE};
        attributes := attributes - {ATTR_DURATION};
      }
      attributes := attributes - {ATTR_CORPSEOWNER};
      if newDuration > 0 && (!prevTy.stopTime || ATTR_DURATION !in attributes) {
        attributes := attributes[ATTR_DECAYSTATE := Num(DECAYING_FALSE)];
        attributes := attributes[ATTR_DURATION := Num(newDuration)];
      }
    }

    method SetSubType(n: nat)
      modifies `attributes, `count
      ensures ty.fluid ==> attributes == old(attributes)[ATTR_FLUIDTYPE := Num(n % 0x1_0000)] && count == old(count)
      ensures !ty.fluid && !ty.stackable && ty.charges != 0 ==>
                attributes == old(attributes)[ATTR_CHARGES := Num(n % 0x1_0000)] && count == old(count)
      ensures !ty.fluid && (ty.stackable || ty.charges == 0) ==> attributes == old(attributes) && count == n % 256
    {
      if ty.fluid {
        attributes := attributes[ATTR_FLUIDTYPE := Num(n % 0x1_0000)];
      } else if ty.stackable {
        count := n % 256;
      } else if ty.charges != 0 {
        attributes := attributes[ATTR_CHARGES := Num(n % 0x1_0000)];
      } else {
        count := n % 256;
      }
    }

    predicate Equals(other: Item?)
      reads this, other
    {
      other != null && ty == other.ty && attributes == other.attributes
    }

    function StackSize(): nat
      reads `ty
    {
      if ty.stackable then ty.stackSize else 1
    }
  }

  function NewDuration(ty: ItemType, roll: nat): nat {
    if ty.decayTimeMin != 0 && ty.decayTimeMax != 0 then roll * 1000 else ty.decayTimeMin * 1000
  }

  function AfterSetID(a: Attributes, prev: ItemType, ty: ItemType, roll: nat): Attributes {
    var d := NewDuration(ty, roll);
    var kept := if d == 0 && !ty.stopTime && ty.decayTo < 0
                then a - {ATTR_DECAYSTATE, ATTR_DURATION, ATTR_CORPSEOWNER} else a - {ATTR_CORPSEOWNER};
    if d > 0 && (!prev.stopTime || ATTR_DURATION !in kept)
    then kept[ATTR_DECAYSTATE := Num(DECAYING_FALSE)][ATTR_DURATION := Num(d)]
    else kept
  }

  /** Two sets of attributes agree on one of them, having it or not. */
  predicate Agree(a: Attributes, b: Attributes, k: nat) {
    (k in a <==> k in b) && (k in a && k in b ==> a[k] == b[k])
  }

  /** The corpse owner is forgotten. Time and decay state go together: a type with a time to live sets both, unless the
      old type had stopped the time; one that neither decays nor stops the time takes both away. The rest stays. */
  lemma ChangeOfType(a: Attributes, prev: ItemType, ty: ItemType, roll: nat)
    ensures var b, d := AfterSetID(a, prev, ty, roll), NewDuration(ty, roll);
      && ATTR_CORPSEOWNER !in b
      && (forall k: nat | k !in {ATTR_CORPSEOWNER, ATTR_DURATION, ATTR_DECAYSTATE} :: Agree(a, b, k))
      && (d > 0 && !(prev.stopTime && ATTR_DURATION in a) ==>
            ATTR_DURATION in b && b[ATTR_DURATION] == Num(d) &&
            ATTR_DECAYSTATE in b && b[ATTR_DECAYSTATE] == Num(DECAYING_FALSE))
      && (d == 0 && !ty.stopTime && ty.decayTo < 0 ==> ATTR_DURATION !in b && ATTR_DECAYSTATE !in b)
      && ((d == 0 && (ty.stopTime || ty.decayTo >= 0)) || (d > 0 && prev.stopTime && ATTR_DURATION in a) ==>
            Agree(a, b, ATTR_DURATION) && Agree(a, b, ATTR_DECAYSTATE))
  {
  }

  /** An item that is put away as a type that stops its time and taken up again has neither gained nor lost any. */
  lemma PausedTimeSurvives(a: Attributes, running: ItemType, stopped: ItemType, roll: nat, roll': nat)
    requires ATTR_DURATION in a && stopped.stopTime && NewDuration(stopped, roll) == 0
    requires NewDuration(running, roll') > 0 || running.stopTime || running.decayTo >= 0
    ensures var b := AfterSetID(AfterSetID(a, running, stopped, roll), stopped, running, roll');
            forall k: nat | k != ATTR_CORPSEOWNER :: Agree(a, b, k)
  {
    ChangeOfType(a, running, stopped, roll);
    ChangeOfType(AfterSetID(a, running, stopped, roll), stopped, running, roll');
  }

  function Weights(s: seq<Item>): (w: seq<int>)
    reads s`ty, s`attributes, s`count, s`totalWeight
    ensures |w| == |s| && forall i | 0 <= i < |s| :: w[i] == s[i].GetWeight()
  {
    if s == [] then [] else [s[0].GetWeight()] + Weights(s[1..])
  }

  // ---------------------------------------------------------------------
  // The forest
  // ---------------------------------------------------------------------

  ghost predicate Distinct(s: seq<Item>) {
    forall j, k | 0 <= j < k < |s| :: s[j] != s[k]
  }

  ghost predicate LinkOk(x: Item, w: set<Item>)
    requires x in w
    reads w`parent, w`itemlist, w`rank
  {
    && (x.parent != null ==> x.parent in w && x in x.parent.itemlist && x.rank < x.parent.rank)
    && (forall k | 0 <= k < |x.itemlist| :: x.itemlist[k] in w && x.itemlist[k].parent == x)
    && Distinct(x.itemlist)
    && (x.itemlist != [] ==> x.container)
  }

  /** Parents and child lists agree, nothing occurs twice, and no item is inside itself. */
  ghost predicate Links(w: set<Item>)
    reads w`parent, w`itemlist, w`rank
  {
    forall x | x in w :: LinkOk(x, w)
  }

  ghost predicate TotalOk(x: Item)
    reads x`itemlist, x`totalWeight, x.itemlist`ty, x.itemlist`attributes, x.itemlist`count, x.itemlist`totalWeight
  {
    x.totalWeight == Wrap(Sum(Weights(x.itemlist)))
  }

  ghost predicate Valid(w: set<Item>)
    reads w
  {
    Links(w) && forall x | x in w :: TotalOk(x)
  }

  lemma Held(x: Item, w: set<Item>)
    requires x in w && Links(w)
    ensures forall y | y in x.itemlist :: y in w && y.parent == x && y.rank < x.rank
    ensures x.itemlist != [] ==> x.container
    ensures Distinct(x.itemlist)
  {
    assert LinkOk(x, w);
    forall y | y in x.itemlist ensures y in w && y.parent == x && y.rank < x.rank {
      var k :| 0 <= k < |x.itemlist| && x.itemlist[k] == y;
      assert LinkOk(y, w);
    }
  }

  ghost function Above(c: Item, w: set<Item>): set<Item>
    reads w`rank
    requires c in w
  {
    set x | x in w && x.rank >= c.rank
  }

  /** The container and everything it is inside of. */
  ghost function Ancestors(c: Item, w: set<Item>): (a: set<Item>)
    requires c in w && Links(w)
    reads w`parent, w`itemlist, w`rank
    ensures c in a && a <= w
    ensures forall x | x in a :: x.rank >= c.rank
    ensures forall x | x in a && x.parent != null :: x.parent in a
    decreases Above(c, w)
  {
    assert LinkOk(c, w);
    if c.parent == null then {c}
    else
      assert Above(c.parent, w) < Above(c, w) by { assert c in Above(c, w) && c !in Above(c.parent, w); }
      {c} + Ancestors(c.parent, w)
  }

  /** No item is inside itself, however deep. */
  lemma Acyclic(x: Item, w: set<Item>)
    requires x in w && Links(w)
    ensures x.parent != null ==> x.parent in w && x !in Ancestors(x.parent, w)
  {
    assert LinkOk(x, w);
  }

  /** The weight of an item and everything in it, counted from scratch. */
  ghost function RecursiveWeight(x: Item, w: set<Item>): nat
    requires x in w && Links(w)
    reads w
    decreases x.rank, 1, 0
  {
    assert LinkOk(x, w);
    x.OwnWeight() + RecursiveWeights(x.itemlist, x.rank, w)
  }

  ghost function RecursiveWeights(s: seq<Item>, bound: nat, w: set<Item>): nat
    requires Links(w) && forall x <- s :: x in w && x.rank < bound
    reads w
    decreases bound, 0, |s|
  {
    if s == [] then 0 else RecursiveWeight(s[0], w) + RecursiveWeights(s[1..], bound, w)
  }

  /** Every cached total is right: the weight of an item is its recursive weight, modulo 2^32. */
  lemma {:induction false} CachedWeightIsRecursive(x: Item, w: set<Item>)
    requires x in w && Valid(w)
    ensures x.GetWeight() == Wrap(RecursiveWeight(x, w))
    decreases x.rank, 1, 0
  {
    hide Sum, Item.OwnWeight, RecursiveWeights, LinkOk;
    Held(x, w);
    assert TotalOk(x);
    var held := RecursiveWeights(x.itemlist, x.rank, w);
    if x.container {
      CachedSumIsRecursive(x.itemlist, x.rank, w);
      WrapTotal(x.OwnWeight(), x.totalWeight, Sum(Weights(x.itemlist)), held);
    } else {
      NothingHeld(x, w);
    }
  }

  lemma NothingHeld(x: Item, w: set<Item>)
    requires x in w && Links(w) && x.itemlist == []
    ensures RecursiveWeights(x.itemlist, x.rank, w) == 0
  {
  }

  lemma {:induction false} CachedSumIsRecursive(s: seq<Item>, bound: nat, w: set<Item>)
    requires Valid(w) && forall x <- s :: x in w && x.rank < bound
    ensures Wrap(Sum(Weights(s))) == Wrap(RecursiveWeights(s, bound, w))
    decreases bound, 0, |s|
  {
    hide Item.GetWeight, RecursiveWeight, LinkOk, TotalOk;
    if s != [] {
      CachedWeightIsRecursive(s[0], w);
      CachedSumIsRecursive(s[1..], bound, w);
      assert Weights(s)[1..] == Weights(s[1..]);
      WrapSum(s[0].GetWeight(), Sum(Weights(s[1..])), RecursiveWeight(s[0], w), RecursiveWeights(s[1..], bound, w));
    }
  }

  /** A new item joins the world. */
  lemma WithFresh(w: set<Item>, x: Item)
    requires Valid(w) && x !in w && x.parent == null && x.itemlist == [] && x.totalWeight == 0
    ensures Valid(w + {x})
  {
    forall y | y in w ensures LinkOk(y, w + {x}) { assert LinkOk(y, w); }
    assert Weights([]) == [] && Sum([]) == 0;
  }

  lemma SoleParent(x: Item, c: Item, w: set<Item>)
    requires x in w && c in w && Links(w) && c.parent != x
    ensures c !in x.itemlist
  {
    hide LinkOk;
    Held(x, w);
  }

  lemma AboveShrinks(c: Item, w: set<Item>)
    requires c in w && Links(w) && c.parent != null
    ensures c.parent in w && Above(c.parent, w) < Above(c, w)
  {
    assert LinkOk(c, w);
    assert c in Above(c, w) && c !in Above(c.parent, w);
  }

  lemma IndexIn(c: Item, w: set<Item>) returns (k: nat)
    requires c in w && Links(w) && c.parent != null
    ensures c.parent in w && c.parent.rank > c.rank && c.parent.container
    ensures k < |c.parent.itemlist| && c.parent.itemlist[k] == c
    ensures forall i | 0 <= i < |c.parent.itemlist| && i != k :: c.parent.itemlist[i] != c
  {
    assert LinkOk(c, w);
    var p := c.parent;
    assert LinkOk(p, w);
    k :| 0 <= k < |p.itemlist| && p.itemlist[k] == c;
  }

  /** Adds a difference to one total; the container above is then off by that difference. */
  method AddToTotal(c: Item, diff: int, ghost w: set<Item>, ghost hole: Item)
    requires c in w && c.container && Links(w) && hole in w && hole.rank <= c.rank
    requires forall x | x in w && x != c && x != hole :: TotalOk(x)
    requires c != hole ==> Wrap(c.totalWeight + diff) == Wrap(Sum(Weights(c.itemlist)))
    modifies c`totalWeight
    ensures c.totalWeight == Wrap(old(c.totalWeight) + diff)
    ensures forall x | x in w && x != c.parent && x != hole :: TotalOk(x)
    ensures c.parent != null ==> c.parent in w && Wrap(c.parent.totalWeight + diff) == Wrap(Sum(Weights(c.parent.itemlist)))
  {
    hide LinkOk, Sum, Wrap, Weights, Item.OwnWeight, Item.GetWeight;
    var p := c.parent;
    ghost var before := if p == null then [] else Weights(p.itemlist);
    ShiftWeight(c.OwnWeight(), c.totalWeight, diff);
    ContainerWeight(c);
    ghost var k: nat := 0;
    if p != null {
      k := IndexIn(c, w);
      TotalIs(p);
    }
    c.totalWeight := Wrap(c.totalWeight + diff);
    forall x | x in w && x != p
      ensures Weights(x.itemlist) == old(Weights(x.itemlist))
    {
      SoleParent(x, c, w);
    }
    if p != null {
      ContainerWeight(c);
      WeightsAre(p.itemlist, before[k := c.GetWeight()]);
      ShiftTotal(p.totalWeight, before, k, c.GetWeight(), diff);
    }
  }

  /** Adds a difference to a container's total and to every total above it. The totals of `hole` and
      of `c` may be off on entry, c's by exactly the difference; on exit only hole's may be. */
  method UpdateItemWeight(c: Item, diff: int, ghost w: set<Item>, ghost hole: Item)
    requires c in w && c.container && Links(w) && hole in w && hole.rank <= c.rank
    requires forall x | x in w && x != c && x != hole :: TotalOk(x)
    requires c != hole ==> Wrap(c.totalWeight + diff) == Wrap(Sum(Weights(c.itemlist)))
    modifies w`totalWeight
    ensures forall x | x in w && x != hole :: TotalOk(x)
    ensures c.totalWeight == Wrap(old(c.totalWeight) + diff)
    ensures forall x | x in w && x.rank <= c.rank && x != c :: x.totalWeight == old(x.totalWeight)
    decreases Above(c, w)
  {
    hide LinkOk, Sum, Wrap, Item.OwnWeight, Item.GetWeight, TotalOk, Weights;
    AddToTotal(c, diff, w, hole);
    if c.parent != null {
      ghost var k := IndexIn(c, w);
      AboveShrinks(c, w);
      UpdateItemWeight(c.parent, diff, w, hole);
    }
  }

  lemma ContainerWeight(c: Item)
    requires c.container
    ensures c.GetWeight() == Wrap(c.OwnWeight() + c.totalWeight)
  {
  }

  lemma WeightsAre(s: seq<Item>, ws: seq<int>)
    requires |ws| == |s| && forall i | 0 <= i < |s| :: ws[i] == s[i].GetWeight()
    ensures Weights(s) == ws
  {
  }

  lemma TotalIs(x: Item)
    requires TotalOk(x)
    ensures x.totalWeight == Wrap(Sum(Weights(x.itemlist)))
  {
  }

  /** Ghost bookkeeping before item is put into c: raises the ranks of c and all it is inside of. */
  ghost method Rerank(c: Item, item: Item, w: set<Item>)
    requires c in w && item in w && Links(w) && item !in Ancestors(c, w)
    modifies w`rank
    ensures Links(w) && item.rank < c.rank
  {
    var a := Ancestors(c, w);
    var shift := item.rank + 1;
    forall x | x in a {
      x.rank := x.rank + shift;
    }
    forall x | x in w ensures LinkOk(x, w) {
      assert old(LinkOk(x, w));
      assert x in a && x.parent != null ==> x.parent in a;
    }
  }

  /** Where a list operation leaves the list, the parent of the item follows. */
  lemma RootInNoList(item: Item, w: set<Item>)
    requires item in w && Links(w) && item.parent == null
    ensures forall x | x in w :: item !in x.itemlist
  {
    forall x | x in w ensures item !in x.itemlist { Held(x, w); }
  }

  function Inserted(s: seq<Item>, pos: nat, item: Item): seq<Item>
    requires pos <= |s|
  {
    s[..pos] + [item] + s[pos..]
  }

  lemma InsertedItems(s: seq<Item>, pos: nat, item: Item)
    requires pos <= |s|
    ensures forall y :: y in Inserted(s, pos, item) <==> y == item || y in s
    ensures Distinct(s) && item !in s ==> Distinct(Inserted(s, pos, item))
  {
    var t := Inserted(s, pos, item);
    assert t[pos] == item;
    assert forall i | 0 <= i < |s| :: s[i] == t[if i < pos then i else i + 1];
    assert forall i | 0 <= i < |t| && i != pos :: t[i] == s[if i < pos then i else i - 1];
  }

  lemma ErasedItems(s: seq<Item>, pos: nat)
    requires pos < |s| && Distinct(s)
    ensures forall y :: y in Without(s, pos) <==> y in s && y != s[pos]
    ensures Distinct(Without(s, pos))
  {
    var t := Without(s, pos);
    assert forall i | 0 <= i < |s| && i != pos :: s[i] == t[if i < pos then i else i - 1];
    assert forall i | 0 <= i < |t| :: t[i] == s[if i < pos then i else i + 1];
  }

  /** Puts a root item into c's list; only c's total is left to be adjusted. */
  method Link(c: Item, pos: nat, item: Item, ghost w: set<Item>)
    requires c in w && item in w && Links(w) && c.container && pos <= |c.itemlist|
    requires item.parent == null && item.rank < c.rank
    requires forall x | x in w && x != c :: TotalOk(x)
    modifies item`parent, c`itemlist
    ensures Links(w) && item.parent == c
    ensures c.itemlist == Inserted(old(c.itemlist), pos, item)
    ensures forall x | x in w && x != c :: TotalOk(x)
  {
    hide Weights, Sum, Wrap, Item.GetWeight, TotalOk, Inserted;
    RootInNoList(item, w);
    assert LinkOk(c, w);
    InsertedItems(c.itemlist, pos, item);
    item.parent := c;
    c.itemlist := Inserted(c.itemlist, pos, item);
    forall x | x in w && x != c ensures TotalOk(x) {
      assert old(TotalOk(x));
      assert Weights(x.itemlist) == old(Weights(x.itemlist));
    }
    forall x | x in w ensures LinkOk(x, w) {
      assert old(LinkOk(x, w));
      if x == c {
        forall k | 0 <= k < |c.itemlist| ensures c.itemlist[k] in w && c.itemlist[k].parent == c {
          assert c.itemlist[k] in c.itemlist;
        }
      }
    }
  }

  /** Takes the item at a position out of c's list; only c's total is left to be adjusted. */
  method Unlink(c: Item, pos: nat, item: Item, ghost w: set<Item>)
    requires c in w && Links(w) && pos < |c.itemlist| && c.itemlist[pos] == item
    requires forall x | x in w && x != c :: TotalOk(x)
    modifies item`parent, c`itemlist
    ensures Links(w) && item.parent == null
    ensures c.itemlist == Without(old(c.itemlist), pos)
    ensures forall x | x in w && x != c :: TotalOk(x)
  {
    hide Weights, Sum, Wrap, Item.GetWeight, TotalOk, Without;
    assert LinkOk(c, w);
    ErasedItems(c.itemlist, pos);
    Held(c, w);
    item.parent := null;
    c.itemlist := Without(c.itemlist, pos);
    forall x | x in w && x != c ensures TotalOk(x) {
      assert old(TotalOk(x));
      assert Weights(x.itemlist) == old(Weights(x.itemlist));
    }
    forall x | x in w ensures LinkOk(x, w) {
      assert old(LinkOk(x, w));
      if x == c {
        forall k | 0 <= k < |c.itemlist| ensures c.itemlist[k] in w && c.itemlist[k].parent == c {
          assert c.itemlist[k] in c.itemlist;
        }
      } else {
        assert item !in x.itemlist;
      }
    }
  }

  // ---------------------------------------------------------------------
  // The cylinder operations
  // ---------------------------------------------------------------------

  lemma WeightsAppend(s: seq<Item>, t: seq<Item>)
    ensures Sum(Weights(s + t)) == Sum(Weights(s)) + Sum(Weights(t))
  {
    hide Sum, Item.GetWeight;
    WeightsAre(s + t, Weights(s) + Weights(t));
    SumAppend(Weights(s), Weights(t));
  }

  lemma WeightsOne(item: Item)
    ensures Sum(Weights([item])) == item.GetWeight()
  {
    hide Item.GetWeight;
    SumOne(item.GetWeight());
    WeightsAre([item], [item.GetWeight()]);
  }

  lemma InsertedSum(s: seq<Item>, pos: nat, item: Item)
    requires pos <= |s|
    ensures Sum(Weights(Inserted(s, pos, item))) == Sum(Weights(s)) + item.GetWeight()
  {
    hide Item.GetWeight, Weights, Sum;
    assert s == s[..pos] + s[pos..];
    WeightsAppend(s[..pos], s[pos..]);
    WeightsAppend(s[..pos] + [item], s[pos..]);
    WeightsAppend(s[..pos], [item]);
    WeightsOne(item);
  }

  lemma InsertUndoesErase(s: seq<Item>, pos: nat)
    requires pos < |s|
    ensures Inserted(Without(s, pos), pos, s[pos]) == s
  {
    var e := Without(s, pos);
    assert e[..pos] == s[..pos] && e[pos..] == s[pos + 1..];
  }

  lemma ErasedSum(s: seq<Item>, pos: nat)
    requires pos < |s|
    ensures Sum(Weights(Without(s, pos))) == Sum(Weights(s)) - s[pos].GetWeight()
  {
    hide Item.GetWeight, Weights, Sum, Inserted;
    InsertedSum(Without(s, pos), pos, s[pos]);
    InsertUndoesErase(s, pos);
  }

  /** Brings every total up to date after the weights in c's list have changed by diff in all. */
  method Settle(c: Item, diff: int, ghost sum: int, ghost w: set<Item>)
    requires c in w && c.container && Links(w)
    requires forall x | x in w && x != c :: TotalOk(x)
    requires c.totalWeight == Wrap(sum) && Sum(Weights(c.itemlist)) == sum + diff
    modifies w`totalWeight
    ensures Valid(w)
  {
    hide LinkOk, Wrap, Sum, Weights, Item.GetWeight;
    ghost var ws := Weights(c.itemlist);
    Held(c, w);
    WrapShift(c.totalWeight, sum, diff);
    UpdateItemWeight(c, diff, w, c);
    WeightsAre(c.itemlist, ws);
  }

  /** Links a root item into a container and brings every total up to date. */
  method Attach(c: Item, pos: nat, item: Item, ghost w: set<Item>)
    requires c in w && item in w && Valid(w) && c.container && pos <= |c.itemlist|
    requires item.parent == null && item !in Ancestors(c, w)
    modifies w`rank, w`totalWeight, item`parent, c`itemlist
    ensures Valid(w) && item.parent == c
    ensures c.itemlist == Inserted(old(c.itemlist), pos, item)
  {
    hide LinkOk, Wrap, Sum, Weights, Item.GetWeight, Inserted;
    Rerank(c, item, w);
    ghost var before := c.itemlist;
    ghost var sum := Sum(Weights(before));
    Link(c, pos, item, w);
    InsertedSum(before, pos, item);
    Settle(c, item.GetWeight(), sum, w);
  }

  method InternalAddThing(c: Item, item: Item, ghost w: set<Item>)
    requires c in w && item in w && Valid(w) && c.container
    requires item.parent == null && item !in Ancestors(c, w)
    modifies w`rank, w`totalWeight, item`parent, c`itemlist
    ensures Valid(w) && item.parent == c && c.itemlist == [item] + old(c.itemlist)
  {
    Attach(c, 0, item, w);
    assert Inserted(old(c.itemlist), 0, item) == [item] + old(c.itemlist);
  }

  /** A position past the capacity is refused silently. */
  method AddThing(c: Item, index: int, item: Item, ghost w: set<Item>)
    requires c in w && item in w && Valid(w) && c.container
    requires item.parent == null && item !in Ancestors(c, w)
    modifies w`rank, w`totalWeight, item`parent, c`itemlist
    ensures Valid(w)
    ensures index < c.maxSize ==> item.parent == c && c.itemlist == [item] + old(c.itemlist)
    ensures index >= c.maxSize ==> item.parent == null && c.itemlist == old(c.itemlist)
    ensures index >= c.maxSize ==> forall x | x in w :: x.totalWeight == old(x.totalWeight)
  {
    if index >= c.maxSize {
      return;
    }
    InternalAddThing(c, item, w);
  }

  method AddItemBack(c: Item, item: Item, ghost w: set<Item>)
    requires c in w && item in w && Valid(w) && c.container
    requires item.parent == null && item !in Ancestors(c, w)
    modifies w`rank, w`totalWeight, item`parent, c`itemlist
    ensures Valid(w) && item.parent == c && c.itemlist == old(c.itemlist) + [item]
  {
    Attach(c, |c.itemlist|, item, w);
    assert Inserted(old(c.itemlist), |old(c.itemlist)|, item) == old(c.itemlist) + [item];
  }

  method GetThingIndex(c: Item, thing: Item) returns (index: int)
    ensures -1 <= index < |c.itemlist|
    ensures index == -1 ==> thing !in c.itemlist
    ensures index >= 0 ==> c.itemlist[index] == thing && thing !in c.itemlist[..index]
  {
    index := 0;
    while index < |c.itemlist|
      invariant 0 <= index <= |c.itemlist| && thing !in c.itemlist[..index]
    {
      if c.itemlist[index] == thing {
        return;
      }
      index := index + 1;
    }
    return -1;
  }

  /** 32-bit signed reading of a wrapped difference. */
  function Signed(v: int): int {
    if Wrap(v) < 0x8000_0000 then Wrap(v) else Wrap(v) - WORD
  }

  /** What is left of a stack of n when `count` are taken: never below zero, stored in 8 bits. */
  function Remaining(n: nat, count: nat): nat {
    (if Signed(n - count) < 0 then 0 else Signed(n - count)) % 256
  }

  lemma ChangedSum(s: seq<Item>, k: nat, before: seq<int>)
    requires k < |s| && |before| == |s|
    requires forall i | 0 <= i < |s| && i != k :: before[i] == s[i].GetWeight()
    ensures Sum(Weights(s)) == Sum(before) - before[k] + s[k].GetWeight()
  {
    hide Item.GetWeight, Weights, Sum;
    WeightsAre(s, before[k := s[k].GetWeight()]);
    SumUpdate(before, k, s[k].GetWeight());
  }

  /** Takes `count` off a stack, or the whole item out of the list. */
  method RemoveThing(c: Item, item: Item, count: nat, ghost w: set<Item>)
    requires c in w && item in w && Valid(w)
    modifies w`totalWeight, item`count, item`parent, c`itemlist
    ensures Valid(w)
    ensures item !in old(c.itemlist) ==>
              c.itemlist == old(c.itemlist) && item.count == old(item.count) && item.parent == old(item.parent)
    ensures item in old(c.itemlist) && item.ty.stackable && count != old(item.count) ==>
              && c.itemlist == old(c.itemlist) && item.parent == c
              && item.count == Remaining(old(item.count), count)
    ensures item in old(c.itemlist) && !(item.ty.stackable && count != old(item.count)) ==>
              && item.parent == null && item.count == old(item.count)
              && exists k | 0 <= k < |old(c.itemlist)| ::
                   old(c.itemlist)[k] == item && c.itemlist == Without(old(c.itemlist), k)
  {
    hide LinkOk, Wrap, Sum, Weights, Item.GetWeight, Without, Remaining, TotalOk;
    var index := GetThingIndex(c, item);
    if index == -1 {
      return;
    }
    Held(c, w);
    TotalIs(c);
    var oldWeight := item.GetWeight();
    if item.ty.stackable && count != item.count {
      ghost var before := Weights(c.itemlist);
      item.count := Remaining(item.count, count);
      forall x | x in w && x != c ensures TotalOk(x) {
        assert old(TotalOk(x));
        SoleParent(x, item, w);
        assert Weights(x.itemlist) == old(Weights(x.itemlist));
      }
      ChangedSum(c.itemlist, index, before);
      Settle(c, item.GetWeight() - oldWeight, Sum(before), w);
    } else {
      RemoveWhole(c, index, item, w);
    }
  }

  method RemoveWhole(c: Item, index: nat, item: Item, ghost w: set<Item>)
    requires c in w && item in w && Valid(w) && index < |c.itemlist| && c.itemlist[index] == item
    modifies w`totalWeight, item`parent, c`itemlist
    ensures Valid(w) && item.parent == null && c.itemlist == Without(old(c.itemlist), index)
  {
    hide LinkOk, Wrap, Sum, Weights, Item.GetWeight, Without;
    Held(c, w);
    ghost var ws := Weights(c.itemlist);
    ghost var list := c.itemlist;
    var weight: int := item.GetWeight();
    WrapShift(c.totalWeight, Sum(ws), -weight);
    UpdateItemWeight(c, -weight, w, c);
    WeightsAre(list, ws);
    Unlink(c, index, item, w);
    ErasedSum(list, index);
    assert TotalOk(c);
  }

  /** What a change of type and subtype leaves: the attributes of the new type, and the number where that type keeps it. */
  predicate Updated(item: Item, attributes: Attributes, ty: ItemType, count: nat, newTy: ItemType, n: nat, roll: nat)
    reads item`ty, item`attributes, item`count
  {
    var kept := AfterSetID(attributes, ty, newTy, roll);
    item.ty == newTy &&
    if newTy.fluid then item.count == count && item.attributes == kept[ATTR_FLUIDTYPE := Num(n % 0x1_0000)]
    else if !newTy.stackable && newTy.charges != 0 then
      item.count == count && item.attributes == kept[ATTR_CHARGES := Num(n % 0x1_0000)]
    else item.count == n % 256 && item.attributes == kept
  }

  method Retype(item: Item, newTy: ItemType, n: nat, roll: nat)
    modifies item`ty, item`attributes, item`count
    ensures Updated(item, old(item.attributes), old(item.ty), old(item.count), newTy, n, roll)
  {
    hide AfterSetID;
    item.SetID(newTy, roll);
    item.SetSubType(n);
  }

  /** Changes type and subtype of a held item; an item held elsewhere is left alone. */
  method UpdateThing(c: Item, item: Item, newTy: ItemType, count: nat, roll: nat, ghost w: set<Item>)
    requires c in w && item in w && Valid(w)
    modifies w`totalWeight, item`ty, item`attributes, item`count
    ensures Valid(w)
    ensures item !in c.itemlist ==>
              item.ty == old(item.ty) && item.attributes == old(item.attributes) && item.count == old(item.count)
    ensures item in c.itemlist ==> Updated(item, old(item.attributes), old(item.ty), old(item.count), newTy, count % 0x1_0000, roll)
  {
    hide LinkOk, Wrap, Sum, Weights, Item.GetWeight, TotalOk, Updated;
    var index := GetThingIndex(c, item);
    if index == -1 {
      return;
    }
    Held(c, w);
    TotalIs(c);
    ghost var before := Weights(c.itemlist);
    var oldWeight := item.GetWeight();
    Retype(item, newTy, count % 0x1_0000, roll);
    forall x | x in w && x != c ensures TotalOk(x) {
      assert old(TotalOk(x));
      SoleParent(x, item, w);
      assert Weights(x.itemlist) == old(Weights(x.itemlist));
    }
    ChangedSum(c.itemlist, index, before);
    Settle(c, item.GetWeight() - oldWeight, Sum(before), w);
  }

  /** Puts a root item in the place of another one; only c's total is left to be adjusted. */
  method Swap(c: Item, index: nat, item: Item, replaced: Item, ghost w: set<Item>)
    requires c in w && item in w && Links(w) && index < |c.itemlist| && c.itemlist[index] == replaced
    requires item.parent == null && item.rank < c.rank
    requires forall x | x in w && x != c :: TotalOk(x)
    modifies item`parent, replaced`parent, c`itemlist
    ensures Links(w) && item.parent == c && replaced.parent == null
    ensures c.itemlist == old(c.itemlist)[index := item]
    ensures forall x | x in w && x != c :: TotalOk(x)
  {
    hide Weights, Sum, Wrap, Item.GetWeight, TotalOk, LinkOk, Links;
    Exchange(c, index, item, replaced, w);
    forall x | x in w && x != c ensures TotalOk(x) { assert old(TotalOk(x)); }
  }

  method Exchange(c: Item, index: nat, item: Item, replaced: Item, ghost w: set<Item>)
    requires c in w && item in w && Links(w) && index < |c.itemlist| && c.itemlist[index] == replaced
    requires item.parent == null && item.rank < c.rank
    modifies item`parent, replaced`parent, c`itemlist
    ensures Links(w) && item.parent == c && replaced.parent == null
    ensures c.itemlist == old(c.itemlist)[index := item]
  {
    RootInNoList(item, w);
    Held(c, w);
    c.itemlist := c.itemlist[index := item];
    item.parent := c;
    replaced.parent := null;
    forall x | x in w ensures LinkOk(x, w) {
      assert old(LinkOk(x, w));
      if x == c {
        assert Distinct(c.itemlist);
      } else if x == item {
        assert c.itemlist[index] == item;
      } else if x.parent == c {
        var k :| 0 <= k < |old(c.itemlist)| && old(c.itemlist)[k] == x;
        assert c.itemlist[k] == x;
      } else {
        assert item !in x.itemlist;
      }
    }
  }

  /** Puts a root item in the place of the item at a position; a position past the end does nothing. */
  method ReplaceThing(c: Item, index: nat, item: Item, ghost w: set<Item>)
    requires c in w && item in w && Valid(w) && c.container
    requires item.parent == null && item !in Ancestors(c, w)
    modifies w`rank, w`totalWeight, w`parent, c`itemlist
    ensures Valid(w)
    ensures index >= |old(c.itemlist)| ==> c.itemlist == old(c.itemlist) && forall x | x in w :: x.parent == old(x.parent)
    ensures index < |old(c.itemlist)| ==>
              && c.itemlist == old(c.itemlist)[index := item] && item.parent == c
              && old(c.itemlist)[index].parent == null
              && forall x | x in w && x != item && x != old(c.itemlist)[index] :: x.parent == old(x.parent)
  {
    hide LinkOk, Wrap, Sum, Weights, Item.GetWeight;
    if index >= |c.itemlist| {
      return;
    }
    var replaced := c.itemlist[index];
    Held(c, w);
    Rerank(c, item, w);
    ghost var before := Weights(c.itemlist);
    Swap(c, index, item, replaced, w);
    ChangedSum(c.itemlist, index, before);
    Settle(c, item.GetWeight() - replaced.GetWeight(), Sum(before), w);
  }
}
