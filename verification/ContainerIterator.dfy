/** The level-order iterator over everything a container holds. */
module ContainerIteration {
  import opened Containers

  // ---------------------------------------------------------------------
  // Level order, defined level by level
  // ---------------------------------------------------------------------

  /** Everything directly inside the items of a row, in row order. */
  function Inside(row: seq<Item>): seq<Item>
    reads row`itemlist
  {
    if row == [] then [] else row[0].itemlist + Inside(row[1..])
  }

  lemma {:induction false} InsideAppend(a: seq<Item>, b: seq<Item>)
    ensures Inside(a + b) == Inside(a) + Inside(b)
  {
    if a == [] {
      assert a + b == b;
    } else {
      InsideAppend(a[1..], b);
      assert (a + b)[1..] == a[1..] + b;
    }
  }

  lemma InsideOne(x: Item)
    ensures Inside([x]) == x.itemlist
  {
    assert [x][1..] == [];
  }

  lemma {:induction false} InsideOf(row: seq<Item>, y: Item)
    ensures y in Inside(row) <==> exists x :: x in row && y in x.itemlist
  {
    if row != [] {
      InsideOf(row[1..], y);
      assert forall x :: x in row <==> x == row[0] || x in row[1..];
    }
  }

  ghost predicate Below(row: seq<Item>, bound: nat, w: set<Item>)
    reads w`rank
  {
    forall x <- row :: x in w && x.rank < bound
  }

  lemma InsideIsBelow(row: seq<Item>, bound: nat, w: set<Item>)
    requires Links(w) && Below(row, bound, w)
    ensures bound > 0 ==> Below(Inside(row), bound - 1, w)
    ensures bound == 0 ==> row == []
  {
    hide LinkOk;
    if row != [] { assert row[0].rank < bound; }
    forall y | y in Inside(row) ensures bound > 0 && y in w && y.rank < bound - 1 {
      InsideOf(row, y);
      var x :| x in row && y in x.itemlist;
      Held(x, w);
    }
  }

  /** The rows below a row, one level after the other. */
  ghost function Levels(row: seq<Item>, bound: nat, w: set<Item>): seq<Item>
    requires Links(w) && Below(row, bound, w)
    reads w`parent, w`itemlist, w`rank
    decreases bound
  {
    if row == [] then []
    else InsideIsBelow(row, bound, w); row + Levels(Inside(row), bound - 1, w)
  }

  /** The bound is only there for termination. */
  lemma {:induction false} LevelsAnyBound(row: seq<Item>, a: nat, b: nat, w: set<Item>)
    requires Links(w) && Below(row, a, w) && Below(row, b, w)
    ensures Levels(row, a, w) == Levels(row, b, w)
    decreases a
  {
    if row != [] {
      InsideIsBelow(row, a, w);
      InsideIsBelow(row, b, w);
      LevelsAnyBound(Inside(row), a - 1, b - 1, w);
    }
  }

  /** Everything a container holds, nearest level first. */
  ghost function Contents(c: Item, w: set<Item>): seq<Item>
    requires c in w && Links(w)
    reads w`parent, w`itemlist, w`rank
  {
    Held(c, w);
    Levels(c.itemlist, c.rank, w)
  }

  // ---------------------------------------------------------------------
  // Level order visits exactly the descendants, each once
  // ---------------------------------------------------------------------

  /** x is inside c, at any depth. */
  ghost predicate Descendant(x: Item, c: Item, w: set<Item>)
    requires x in w && c in w && Links(w)
    reads w`parent, w`itemlist, w`rank
  {
    assert LinkOk(x, w);
    x != c && c in Ancestors(x, w)
  }

  /** An item is in the levels of a row exactly if it is in the row or inside one of its items. */
  lemma {:induction false} LevelsHold(row: seq<Item>, bound: nat, w: set<Item>, y: Item)
    requires Links(w) && Below(row, bound, w) && y in w
    ensures y in Levels(row, bound, w) <==> exists x :: x in row && x in Ancestors(y, w)
    decreases bound
  {
    hide LinkOk;
    if row != [] {
      InsideIsBelow(row, bound, w);
      LevelsHold(Inside(row), bound - 1, w, y);
      if y in row {
      } else {
        forall x | x in row ensures x in Ancestors(y, w) <==> exists z :: z in x.itemlist && z in Ancestors(y, w) {
          OneStepDown(x, y, w);
        }
        forall z ensures z in Inside(row) <==> exists x :: x in row && z in x.itemlist { InsideOf(row, z); }
      }
    }
  }

  /** Between an item and anything it is inside of lies a direct child of the latter. */
  lemma {:induction false} OneStepDown(x: Item, y: Item, w: set<Item>)
    requires Links(w) && x in w && y in w && x != y
    ensures x in Ancestors(y, w) <==> exists z :: z in x.itemlist && z in Ancestors(y, w)
    decreases Above(y, w)
  {
    assert LinkOk(y, w);
    if exists z :: z in x.itemlist && z in Ancestors(y, w) {
      var z :| z in x.itemlist && z in Ancestors(y, w);
      Held(x, w);
    }
    if x in Ancestors(y, w) {
      AboveShrinks(y, w);
      if y.parent == x {
        assert y in x.itemlist && y in Ancestors(y, w);
      } else {
        OneStepDown(x, y.parent, w);
      }
    }
  }

  lemma {:induction false} AncestorsOfAncestor(z: Item, y: Item, w: set<Item>)
    requires Links(w) && z in w && y in w && z in Ancestors(y, w)
    ensures Ancestors(z, w) <= Ancestors(y, w)
    decreases Above(z, w)
  {
    assert LinkOk(z, w);
    if z.parent != null {
      AboveShrinks(z, w);
      AncestorsOfAncestor(z.parent, y, w);
    }
  }

  /** No item of the row is inside another one. */
  ghost predicate Antichain(row: seq<Item>, w: set<Item>)
    requires Links(w) && forall x <- row :: x in w
    reads w`parent, w`itemlist, w`rank
  {
    forall x, y | x in row && y in row && x != y :: x !in Ancestors(y, w)
  }

  lemma {:induction false} InsideDistinct(row: seq<Item>, w: set<Item>)
    requires Links(w) && Distinct(row) && forall x <- row :: x in w
    ensures Distinct(Inside(row))
  {
    hide LinkOk;
    if row != [] {
      var x := row[0];
      InsideDistinct(row[1..], w);
      Held(x, w);
      forall y | y in x.itemlist ensures y !in Inside(row[1..]) {
        InsideOf(row[1..], y);
        if z :| z in row[1..] && y in z.itemlist {
          Held(z, w);
        }
      }
      DistinctAppend(x.itemlist, Inside(row[1..]));
    }
  }

  lemma DistinctAppend(a: seq<Item>, b: seq<Item>)
    requires Distinct(a) && Distinct(b) && forall y | y in a :: y !in b
    ensures Distinct(a + b)
  {
    var s := a + b;
    forall j, k | 0 <= j < k < |s| ensures s[j] != s[k] {
      if j < |a| <= k { assert s[j] in a && s[k] == b[k - |a|]; }
    }
  }

  lemma InsideAntichain(row: seq<Item>, w: set<Item>)
    requires Links(w) && (forall x <- row :: x in w) && Antichain(row, w)
    ensures forall y <- Inside(row) :: y in w
    ensures Antichain(Inside(row), w)
  {
    hide LinkOk;
    forall y | y in Inside(row) ensures y in w && y.parent in row && y.parent.rank > y.rank {
      InsideOf(row, y);
      var x :| x in row && y in x.itemlist;
      Held(x, w);
    }
    forall a, b | a in Inside(row) && b in Inside(row) && a != b ensures a !in Ancestors(b, w) {
      ParentStep(a, b, w);
    }
  }

  lemma ParentStep(a: Item, b: Item, w: set<Item>)
    requires Links(w) && a in w && b in w && a != b && a.parent != null && b.parent != null
    ensures a in Ancestors(b, w) ==> b.parent in w && a.parent in Ancestors(b.parent, w) && a.parent != b.parent
  {
    assert LinkOk(b, w) && LinkOk(a, w);
  }

  /** Nothing is visited twice. */
  lemma {:induction false} LevelsDistinct(row: seq<Item>, bound: nat, w: set<Item>)
    requires Links(w) && Below(row, bound, w) && Distinct(row) && Antichain(row, w)
    ensures Distinct(Levels(row, bound, w))
    decreases bound
  {
    hide LinkOk, Ancestors;
    if row != [] {
      InsideIsBelow(row, bound, w);
      InsideDistinct(row, w);
      InsideAntichain(row, w);
      LevelsDistinct(Inside(row), bound - 1, w);
      forall y | y in row ensures y !in Levels(Inside(row), bound - 1, w) {
        RowIsNotBelow(row, bound, w, y);
      }
      DistinctAppend(row, Levels(Inside(row), bound - 1, w));
    }
  }

  lemma RowIsNotBelow(row: seq<Item>, bound: nat, w: set<Item>, y: Item)
    requires Links(w) && bound > 0 && Below(row, bound, w) && Antichain(row, w) && y in row
    requires Below(Inside(row), bound - 1, w)
    ensures y !in Levels(Inside(row), bound - 1, w)
  {
    hide LinkOk, Ancestors, Levels;
    LevelsHold(Inside(row), bound - 1, w, y);
    forall z | z in Inside(row) ensures z !in Ancestors(y, w) {
      InsideOf(row, z);
      var x :| x in row && z in x.itemlist;
      Held(x, w);
    }
  }

  /** The iterator's contract in one place: exactly the descendants, each exactly once. */
  lemma ContentsAreDescendants(c: Item, w: set<Item>)
    requires c in w && Links(w)
    ensures Distinct(Contents(c, w))
    ensures forall y | y in w :: y in Contents(c, w) <==> Descendant(y, c, w)
  {
    hide LinkOk, Levels, Ancestors;
    Held(c, w);
    forall x, y | x in c.itemlist && y in c.itemlist && x != y ensures x !in Ancestors(y, w) {
      SiblingIsNoAncestor(x, y, w);
    }
    LevelsDistinct(c.itemlist, c.rank, w);
    forall y | y in w ensures y in Contents(c, w) <==> Descendant(y, c, w) {
      LevelsHold(c.itemlist, c.rank, w, y);
      if y != c {
        OneStepDown(c, y, w);
      } else {
        assert forall x | x in c.itemlist :: x !in Ancestors(c, w);
      }
    }
  }

  lemma SiblingIsNoAncestor(x: Item, y: Item, w: set<Item>)
    requires Links(w) && x in w && y in w && x != y && x.parent != null && x.parent == y.parent
    ensures x !in Ancestors(y, w)
  {
    assert LinkOk(x, w) && LinkOk(y, w);
  }

  // ---------------------------------------------------------------------
  // The iterator
  // ---------------------------------------------------------------------

  class ContainerIterator {
    /** Containers still to be walked; the first one is being walked. */
    var over: seq<Item>
    /** The position in the list of the first one. */
    var cur: nat
    /** What is known to come: the rest of this level, and the part of the next level found so far. */
    ghost var level: seq<Item>
    ghost var next: seq<Item>

    ghost predicate Valid(bound: nat, w: set<Item>)
      reads this, w`parent, w`itemlist, w`rank, over`itemlist, level`itemlist
    {
      && Links(w) && (forall c <- over :: c in w && c.itemlist != [])
      && (over != [] ==> cur < |over[0].itemlist| && level != []
                         && over[0].itemlist[cur..] + Inside(over[1..]) == level + next)
      && (over == [] ==> level == [] && next == [])
      && Below(level, bound, w) && Below(next + Inside(level), bound, w)
    }

    /** Everything the iterator has still to deliver, in order. */
    ghost function Rest(bound: nat, w: set<Item>): seq<Item>
      requires Valid(bound, w)
      reads this, w`parent, w`itemlist, w`rank, over`itemlist, level`itemlist
    {
      level + Levels(next + Inside(level), bound, w)
    }

    constructor (c: Item, ghost w: set<Item>)
      requires c in w && Links(w)
      ensures Valid(c.rank, w) && Rest(c.rank, w) == Contents(c, w)
    {
      hide LinkOk, Levels, Inside;
      over, cur, level, next := [], 0, [], [];
      new;
      Held(c, w);
      InsideNothing();
      if c.itemlist != [] {
        over, cur := [c], 0;
        level := c.itemlist;
        LevelsUnfold(level, c.rank, w);
        assert next + Inside(level) == Inside(level);
        assert over[1..] == [];
        assert c.itemlist[0..] + [] == level + next;
      } else {
        assert next + Inside(level) == [];
        LevelsUnfold([], c.rank, w);
      }
    }

    function HasNext(): bool
      reads this
    {
      over != []
    }

    function Current(): Item
      reads this, over`itemlist
      requires over != [] && cur < |over[0].itemlist|
    {
      over[0].itemlist[cur]
    }

    /** The walk itself: queue the current item if it holds something, then step. */
    method Walk(ghost bound: nat, ghost w: set<Item>)
      requires Valid(bound, w) && HasNext()
      modifies `over, `cur
      ensures forall c <- over :: c in w && c.itemlist != []
      ensures over != [] ==> cur < |over[0].itemlist| && level != []
      ensures over != [] ==>
                over[0].itemlist[cur..] + Inside(over[1..]) == level[1..] + (next + level[0].itemlist)
      ensures over == [] ==> level[1..] == [] && next == [] && level[0].itemlist == []
      ensures level != [] && level[0] == old(Current())
    {
      hide LinkOk, Levels, Inside;
      var i := over[0].itemlist[cur];
      ghost var ahead := over[0].itemlist[cur..];
      ghost var behind := over[1..];
      ghost var queue := if i.itemlist != [] then behind + [i] else behind;
      FirstOfLevel(ahead, Inside(behind), level, next);
      StepLevel(level, next, bound, w);
      QueueStep(behind, i, w);
      JoinStep(ahead[1..], Inside(behind), i.itemlist, level[1..], next);
      assert over[0].itemlist[cur + 1..] == ahead[1..];
      if i.container && i.itemlist != [] {
        over := over + [i];
      }
      assert over[1..] == queue;
      cur := cur + 1;
      if cur == |over[0].itemlist| {
        assert ahead[1..] + Inside(queue) == Inside(queue);
        over := over[1..];
        if over != [] {
          cur := 0;
          QueueHead(over);
        } else {
          InsideNothing();
        }
      }
    }

    /** Delivers the current item; a container that holds something is queued behind the others. */
    method Advance(ghost bound: nat, ghost w: set<Item>)
      requires Valid(bound, w) && HasNext()
      modifies this
      ensures Valid(bound, w)
      ensures old(Rest(bound, w)) == [old(Current())] + Rest(bound, w)
    {
      hide LinkOk, Levels, Inside;
      StepRest(level, Levels(next + Inside(level), bound, w));
      Walk(bound, w);
      StepLevel(level, next, bound, w);
      level, next := level[1..], next + level[0].itemlist;
      NextLevel(bound, w);
    }

    /** When a level is finished, the next one becomes the current one. */
    ghost method NextLevel(bound: nat, w: set<Item>)
      requires Links(w) && (forall c <- over :: c in w && c.itemlist != [])
      requires over != [] ==> cur < |over[0].itemlist| && over[0].itemlist[cur..] + Inside(over[1..]) == level + next
      requires over == [] ==> level == [] && next == []
      requires Below(level, bound, w) && Below(next + Inside(level), bound, w)
      modifies `level, `next
      ensures Valid(bound, w)
      ensures Rest(bound, w) == old(level + Levels(next + Inside(level), bound, w))
    {
      hide LinkOk, Levels, Inside;
      InsideNothing();
      if level == [] {
        assert next + Inside(level) == next;
        LevelsUnfold(next, bound, w);
        level, next := next, [];
        assert next + Inside(level) == Inside(level);
        assert level + next == old(level + next);
      }
    }
  }

  lemma StepRest(level: seq<Item>, future: seq<Item>)
    requires level != []
    ensures level + future == [level[0]] + (level[1..] + future)
  {
  }

  lemma JoinStep(ahead: seq<Item>, behind: seq<Item>, found: seq<Item>, level: seq<Item>, next: seq<Item>)
    requires ahead + behind == level + next
    ensures ahead + (behind + found) == level + (next + found)
  {
    assert ahead + (behind + found) == (ahead + behind) + found;
    assert level + (next + found) == (level + next) + found;
  }

  lemma InsideNothing()
    ensures Inside([]) == []
  {
  }

  /** One level of a walk peeled off; the levels below do not depend on the bound. */
  lemma LevelsUnfold(row: seq<Item>, bound: nat, w: set<Item>)
    requires Links(w) && Below(row, bound, w)
    ensures Below(Inside(row), bound, w)
    ensures Levels(row, bound, w) == row + Levels(Inside(row), bound, w)
  {
    hide LinkOk;
    InsideIsBelow(row, bound, w);
    if row != [] {
      LevelsAnyBound(Inside(row), bound, bound - 1, w);
    }
  }

  lemma FirstOfLevel(ahead: seq<Item>, rest: seq<Item>, level: seq<Item>, next: seq<Item>)
    requires ahead != [] && level != [] && ahead + rest == level + next
    ensures ahead[0] == level[0] && ahead[1..] + rest == level[1..] + next
  {
    assert (ahead + rest)[0] == (level + next)[0];
    assert (ahead + rest)[1..] == (level + next)[1..];
    assert (ahead + rest)[1..] == ahead[1..] + rest;
    assert (level + next)[1..] == level[1..] + next;
  }

  /** Moving one item from the current level into the past, its contents into the next level. */
  lemma StepLevel(level: seq<Item>, next: seq<Item>, bound: nat, w: set<Item>)
    requires Links(w) && level != [] && Below(level, bound, w) && Below(next + Inside(level), bound, w)
    ensures next + Inside(level) == next + level[0].itemlist + Inside(level[1..])
    ensures Below(level[1..], bound, w) && Below(next + level[0].itemlist + Inside(level[1..]), bound, w)
    ensures level[0] in w && (level[0].itemlist != [] ==> level[0].container)
  {
    hide LinkOk;
    Held(level[0], w);
    assert next + Inside(level) == next + level[0].itemlist + Inside(level[1..]);
  }

  lemma QueueStep(behind: seq<Item>, i: Item, w: set<Item>)
    ensures Inside(if i.itemlist != [] then behind + [i] else behind) == Inside(behind) + i.itemlist
  {
    InsideAppend(behind, [i]);
    InsideOne(i);
  }

  lemma QueueHead(over: seq<Item>)
    requires over != []
    ensures over[0].itemlist[0..] + Inside(over[1..]) == Inside(over)
  {
  }

  // ---------------------------------------------------------------------
  // The container members that walk it
  // ---------------------------------------------------------------------

  /** An iterator that has finished has nothing left, and one that has not is at its next item. */
  lemma AtNext(it: ContainerIterator, bound: nat, w: set<Item>)
    requires it.Valid(bound, w)
    ensures it.HasNext() <==> it.Rest(bound, w) != []
    ensures it.HasNext() ==> it.cur < |it.over[0].itemlist| && it.Rest(bound, w)[0] == it.Current()
  {
    hide LinkOk, Inside;
    InsideNothing();
    if it.HasNext() {
      var ahead := it.over[0].itemlist[it.cur..];
      FirstOfLevel(ahead, Inside(it.over[1..]), it.level, it.next);
    } else {
      assert it.next + Inside(it.level) == [];
    }
  }

  /** All items, in the order the iterator delivers them. */
  method AllItems(c: Item, ghost w: set<Item>) returns (items: seq<Item>)
    requires c in w && Links(w)
    ensures items == Contents(c, w)
  {
    hide LinkOk, Contents, ContainerIterator.Valid, ContainerIterator.Rest, Links;
    items := [];
    var it := new ContainerIterator(c, w);
    AtNext(it, c.rank, w);
    while it.HasNext()
      invariant it.Valid(c.rank, w) && fresh(it)
      invariant items + it.Rest(c.rank, w) == Contents(c, w)
      invariant it.HasNext() <==> it.Rest(c.rank, w) != []
      invariant it.HasNext() ==> it.cur < |it.over[0].itemlist| && it.Rest(c.rank, w)[0] == it.Current()
      decreases |it.Rest(c.rank, w)|
    {
      items := items + [it.Current()];
      it.Advance(c.rank, w);
      AtNext(it, c.rank, w);
    }
    assert items + [] == items;
  }

  method GetItems(c: Item, recursive: bool, ghost w: set<Item>) returns (items: seq<Item>)
    requires c in w && Links(w)
    ensures items == if recursive then Contents(c, w) else c.itemlist
  {
    hide LinkOk, Contents;
    if recursive {
      items := AllItems(c, w);
      return;
    }
    items := [];
    var i := 0;
    while i < |c.itemlist|
      invariant i <= |c.itemlist| && items == c.itemlist[..i]
    {
      items := items + [c.itemlist[i]];
      i := i + 1;
    }
  }

  method GetItemHoldingCount(c: Item, ghost w: set<Item>) returns (counter: nat)
    requires c in w && Links(w)
    ensures counter == |Contents(c, w)|
  {
    hide LinkOk, Contents, ContainerIterator.Valid, ContainerIterator.Rest, Links;
    counter := 0;
    var it := new ContainerIterator(c, w);
    AtNext(it, c.rank, w);
    while it.HasNext()
      invariant it.Valid(c.rank, w) && fresh(it)
      invariant counter + |it.Rest(c.rank, w)| == |Contents(c, w)|
      invariant it.HasNext() <==> it.Rest(c.rank, w) != []
      decreases |it.Rest(c.rank, w)|
    {
      counter := counter + 1;
      it.Advance(c.rank, w);
      AtNext(it, c.rank, w);
    }
  }

  method IsHoldingItem(c: Item, item: Item, ghost w: set<Item>) returns (holding: bool)
    requires c in w && item in w && Links(w)
    ensures holding <==> Descendant(item, c, w)
  {
    hide LinkOk, Contents, Descendant, ContainerIterator.Valid, ContainerIterator.Rest, Links;
    ContentsAreDescendants(c, w);
    var it := new ContainerIterator(c, w);
    AtNext(it, c.rank, w);
    while it.HasNext()
      invariant it.Valid(c.rank, w) && fresh(it)
      invariant item in Contents(c, w) <==> item in it.Rest(c.rank, w)
      invariant it.HasNext() <==> it.Rest(c.rank, w) != []
      invariant it.HasNext() ==> it.cur < |it.over[0].itemlist| && it.Rest(c.rank, w)[0] == it.Current()
      decreases |it.Rest(c.rank, w)|
    {
      if it.Current() == item {
        return true;
      }
      it.Advance(c.rank, w);
      AtNext(it, c.rank, w);
    }
    return false;
  }

  /** The count is the number of different items inside the container. */
  lemma HoldingCountIsDescendantCount(c: Item, w: set<Item>)
    requires c in w && Links(w)
    ensures |Contents(c, w)| == |set y | y in w && Descendant(y, c, w)|
  {
    hide LinkOk, Contents, Descendant;
    ContentsAreDescendants(c, w);
    var s := Contents(c, w);
    ContentsInWorld(c, w);
    DistinctSize(s);
    assert (set y | y in s) == (set y | y in w && Descendant(y, c, w));
  }

  lemma ContentsInWorld(c: Item, w: set<Item>)
    requires c in w && Links(w)
    ensures forall y <- Contents(c, w) :: y in w
  {
    Held(c, w);
    LevelsInWorld(c.itemlist, c.rank, w);
  }

  lemma {:induction false} LevelsInWorld(row: seq<Item>, bound: nat, w: set<Item>)
    requires Links(w) && Below(row, bound, w)
    ensures forall y <- Levels(row, bound, w) :: y in w
    decreases bound
  {
    if row != [] {
      InsideIsBelow(row, bound, w);
      LevelsInWorld(Inside(row), bound - 1, w);
    }
  }

  lemma {:induction false} DistinctSize(s: seq<Item>)
    requires Distinct(s)
    ensures |set y | y in s| == |s|
  {
    if s != [] {
      DistinctSize(s[1..]);
      var rest := set y | y in s[1..];
      assert s[0] !in rest;
      assert (set y | y in s) == {s[0]} + rest;
    }
  }
}
