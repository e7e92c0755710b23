/** A player's item forests as database rows: written breadth first, rebuilt from the highest id down. */
module LoginItems {
  import opened Basics
  import opened Containers

  const FIRST_ID := 100

  /** The parent ids that mean a place of the player rather than another row: inventory slots 1 to 10,
      or depots 0 to 99. All of them lie below the first id handed out to an item. */
  datatype Places = Places(first: int, last: int)

  const INVENTORY := Places(1, 10)
  const DEPOTS := Places(0, 99)

  /** What a row keeps of an item. The container flag and the size are what the item's type implies. */
  datatype Payload = Payload(ty: ItemType, attributes: Attributes, count: nat, container: bool, maxSize: nat)

  datatype Row = Row(pid: int, sid: int, payload: Payload)

  datatype Tree = Tree(payload: Payload, children: seq<Tree>)

  predicate WellFormed(t: Tree) {
    (t.children != [] ==> t.payload.container) && forall c <- t.children :: WellFormed(c)
  }

  function Size(t: Tree): nat { 1 + Sizes(t.children) }

  function Sizes(ts: seq<Tree>): nat {
    if ts == [] then 0 else Size(ts[0]) + Sizes(ts[1..])
  }

  // ---------------------------------------------------------------------
  // Writing: n is the number of rows already written
  // ---------------------------------------------------------------------

  datatype Block = Block(tree: Tree, sid: int)

  function RowsFor(pid: int, ts: seq<Tree>, n: nat): (rows: seq<Row>)
    ensures |rows| == |ts|
    ensures forall j | 0 <= j < |rows| :: rows[j] == Row(pid, FIRST_ID + n + j + 1, ts[j].payload)
  {
    if ts == [] then [] else [Row(pid, FIRST_ID + n + 1, ts[0].payload)] + RowsFor(pid, ts[1..], n + 1)
  }

  /** The containers among the items just written, with their ids. */
  function QueueFor(ts: seq<Tree>, n: nat): seq<Block> {
    if ts == [] then []
    else (if ts[0].payload.container then [Block(ts[0], FIRST_ID + n + 1)] else []) + QueueFor(ts[1..], n + 1)
  }

  function Weight(queue: seq<Block>): nat {
    if queue == [] then 0 else Size(queue[0].tree) + Weight(queue[1..])
  }

  lemma {:induction false} WeightAppend(a: seq<Block>, b: seq<Block>)
    ensures Weight(a + b) == Weight(a) + Weight(b)
  {
    if a == [] {
      assert a + b == b;
    } else {
      WeightAppend(a[1..], b);
      assert (a + b)[1..] == a[1..] + b;
    }
  }

  lemma {:induction false} QueueForWeight(ts: seq<Tree>, n: nat)
    ensures Weight(QueueFor(ts, n)) <= Sizes(ts)
  {
    if ts != [] {
      QueueForWeight(ts[1..], n + 1);
      var head := if ts[0].payload.container then [Block(ts[0], FIRST_ID + n + 1)] else [];
      WeightAppend(head, QueueFor(ts[1..], n + 1));
      assert Weight(head) <= Size(ts[0]);
    }
  }

  function Bfs(queue: seq<Block>, n: nat): seq<Row>
    decreases Weight(queue)
  {
    if queue == [] then []
    else
      var ts := queue[0].tree.children;
      QueueForWeight(ts, n);
      WeightAppend(queue[1..], QueueFor(ts, n));
      RowsFor(queue[0].sid, ts, n) + Bfs(queue[1..] + QueueFor(ts, n), n + |ts|)
  }

  /** Top level items come with the slot or depot they lie in. */
  datatype Placed = Placed(pid: int, tree: Tree)

  function RootRows(list: seq<Placed>, n: nat): (rows: seq<Row>)
    ensures |rows| == |list|
    ensures forall j | 0 <= j < |rows| :: rows[j] == Row(list[j].pid, FIRST_ID + n + j + 1, list[j].tree.payload)
  {
    if list == [] then [] else [Row(list[0].pid, FIRST_ID + n + 1, list[0].tree.payload)] + RootRows(list[1..], n + 1)
  }

  function Trees(list: seq<Placed>): (ts: seq<Tree>)
    ensures |ts| == |list| && forall i | 0 <= i < |list| :: ts[i] == list[i].tree
  {
    if list == [] then [] else [list[0].tree] + Trees(list[1..])
  }

  function Flatten(list: seq<Placed>): seq<Row> {
    RootRows(list, 0) + Bfs(QueueFor(Trees(list), 0), |list|)
  }

  // ---------------------------------------------------------------------
  // Reading: a row is a child of the row whose id it names
  // ---------------------------------------------------------------------

  predicate IsRoot(places: Places, pid: int) { places.first <= pid <= places.last }

  function Build(places: Places, rows: seq<Row>, i: nat): Tree
    requires i < |rows|
    decreases |rows| - i, 1
  {
    Tree(rows[i].payload, if rows[i].payload.container then BuildAll(places, rows, rows[i].sid, i + 1) else [])
  }

  /** The trees of the rows from `from` on that hang under an id, in row order. */
  function BuildAll(places: Places, rows: seq<Row>, sid: int, from: nat): seq<Tree>
    requires from <= |rows|
    decreases |rows| - from, 2
  {
    if from == |rows| then []
    else (if !IsRoot(places, rows[from].pid) && rows[from].pid == sid then [Build(places, rows, from)] else [])
         + BuildAll(places, rows, sid, from + 1)
  }

  /** The forest the rows describe, in row order. */
  function Forest(places: Places, rows: seq<Row>, from: nat): seq<Placed>
    requires from <= |rows|
    decreases |rows| - from
  {
    if from == |rows| then []
    else (if IsRoot(places, rows[from].pid) then [Placed(rows[from].pid, Build(places, rows, from))] else []) + Forest(places, rows, from + 1)
  }

  // ---------------------------------------------------------------------
  // Reading undoes writing
  // ---------------------------------------------------------------------

  ghost predicate Increasing(queue: seq<Block>) {
    forall i, j | 0 <= i < j < |queue| :: queue[i].sid < queue[j].sid
  }

  lemma {:induction false} QueueForIds(ts: seq<Tree>, n: nat)
    ensures Increasing(QueueFor(ts, n))
    ensures forall b <- QueueFor(ts, n) ::
              FIRST_ID + n < b.sid <= FIRST_ID + n + |ts| && b.tree == ts[b.sid - FIRST_ID - n - 1] && b.tree.payload.container
  {
    if ts != [] {
      var rest := QueueFor(ts[1..], n + 1);
      QueueForIds(ts[1..], n + 1);
      forall b <- QueueFor(ts, n)
        ensures FIRST_ID + n < b.sid <= FIRST_ID + n + |ts| && b.tree == ts[b.sid - FIRST_ID - n - 1] && b.tree.payload.container
      {
        if b in rest { assert ts[1..][b.sid - FIRST_ID - n - 2] == b.tree; }
      }
      hide QueueFor;
      forall i, j | 0 <= i < j < |rest| ensures rest[i].sid < rest[j].sid && rest[j].sid > FIRST_ID + n + 1 {
      }
      QueueHead(ts, n);
    }
  }

  lemma QueueHead(ts: seq<Tree>, n: nat)
    requires ts != []
    ensures QueueFor(ts, n) ==
            (if ts[0].payload.container then [Block(ts[0], FIRST_ID + n + 1)] else []) + QueueFor(ts[1..], n + 1)
  {
  }

  lemma {:induction false} QueueForAll(ts: seq<Tree>, n: nat, j: nat)
    requires j < |ts| && ts[j].payload.container
    ensures Block(ts[j], FIRST_ID + n + j + 1) in QueueFor(ts, n)
  {
    if j > 0 { QueueForAll(ts[1..], n + 1, j - 1); }
  }

  /** Rows still to be written name a queued id, or an id not handed out yet. */
  lemma {:induction false} BfsPids(queue: seq<Block>, n: nat, r: Row)
    requires r in Bfs(queue, n)
    ensures r.pid > FIRST_ID + n || exists b :: b in queue && b.sid == r.pid
    decreases Weight(queue)
  {
    hide QueueFor, RowsFor;
    var ts := queue[0].tree.children;
    var q := QueueFor(ts, n);
    var seg := RowsFor(queue[0].sid, ts, n);
    QueueForWeight(ts, n);
    WeightAppend(queue[1..], q);
    if r in seg {
      assert queue[0] in queue;
    } else {
      assert r in Bfs(queue[1..] + q, n + |ts|);
      BfsPids(queue[1..] + q, n + |ts|, r);
      QueueForIds(ts, n);
      if b :| b in queue[1..] + q && b.sid == r.pid {
        assert b in queue[1..] || b in q;
        assert b in queue[1..] ==> b in queue;
      }
    }
  }

  ghost predicate Numbered(rows: seq<Row>) {
    forall i | 0 <= i < |rows| :: rows[i].sid == FIRST_ID + 1 + i
  }

  lemma {:induction false} BuildAllSkip(places: Places, rows: seq<Row>, sid: int, a: nat, b: nat)
    requires a <= b <= |rows| && forall i | a <= i < b :: rows[i].pid != sid
    ensures BuildAll(places, rows, sid, a) == BuildAll(places, rows, sid, b)
    decreases b - a
  {
    if a < b { BuildAllSkip(places, rows, sid, a + 1, b); }
  }

  /** A stretch of rows that all hang under the id and stand for the given trees. */
  lemma {:induction false} BuildAllStretch(places: Places, rows: seq<Row>, sid: int, a: nat, ts: seq<Tree>)
    requires a + |ts| <= |rows| && !IsRoot(places, sid)
    requires forall i | a <= i < a + |ts| :: rows[i].pid == sid && Build(places, rows, i) == ts[i - a]
    ensures BuildAll(places, rows, sid, a) == ts + BuildAll(places, rows, sid, a + |ts|)
    decreases |ts|
  {
    if ts != [] {
      hide Build;
      assert Build(places, rows, a) == ts[0] && rows[a].pid == sid;
      BuildAllStretch(places, rows, sid, a + 1, ts[1..]);
      Assoc([ts[0]], ts[1..], BuildAll(places, rows, sid, a + |ts|));
      assert ts == [ts[0]] + ts[1..];
    }
  }

  /** A queue in the middle of the walk: ids in order, all handed out, none used as a parent yet. */
  ghost predicate Queued(rows: seq<Row>, queue: seq<Block>, n: nat) {
    && n <= |rows| && Numbered(rows) && Increasing(queue) && rows[n..] == Bfs(queue, n)
    && (forall b <- queue :: FIRST_ID < b.sid <= FIRST_ID + n && WellFormed(b.tree) && b.tree.payload.container)
    && (forall i, b | 0 <= i < n && b in queue :: rows[i].pid != b.sid)
    && (forall i | 0 <= i < n :: rows[i].pid <= FIRST_ID + n)
  }

  lemma QueuedStep(rows: seq<Row>, queue: seq<Block>, n: nat)
    requires Queued(rows, queue, n) && queue != []
    ensures var ts := queue[0].tree.children;
            && n + |ts| <= |rows| && rows[n..n + |ts|] == RowsFor(queue[0].sid, ts, n)
            && Queued(rows, queue[1..] + QueueFor(ts, n), n + |ts|)
  {
    hide QueueFor, Bfs;
    var ts := queue[0].tree.children;
    var q := QueueFor(ts, n);
    var seg := RowsFor(queue[0].sid, ts, n);
    QueueForIds(ts, n);
    assert Bfs(queue, n) == seg + Bfs(queue[1..] + q, n + |ts|) by { BfsUnfold(queue, n); }
    assert rows[n..] == seg + Bfs(queue[1..] + q, n + |ts|);
    assert rows[n..][..|ts|] == rows[n..n + |ts|];
    assert rows[n..][|ts|..] == rows[n + |ts|..];
    var q' := queue[1..] + q;
    forall b | b in q' ensures FIRST_ID < b.sid <= FIRST_ID + n + |ts| && WellFormed(b.tree) && b.tree.payload.container {
      assert b in queue[1..] || b in q;
    }
    forall i, b | 0 <= i < n + |ts| && b in q' ensures rows[i].pid != b.sid {
      assert b in queue[1..] || b in q;
      if i >= n { assert rows[i] == rows[n..n + |ts|][i - n]; }
    }
    forall i | 0 <= i < n + |ts| ensures rows[i].pid <= FIRST_ID + n + |ts| {
      if i >= n { assert rows[i] == rows[n..n + |ts|][i - n]; }
    }
    assert Increasing(q');
  }

  lemma BfsUnfold(queue: seq<Block>, n: nat)
    requires queue != []
    ensures var ts := queue[0].tree.children;
            Bfs(queue, n) == RowsFor(queue[0].sid, ts, n) + Bfs(queue[1..] + QueueFor(ts, n), n + |ts|)
  {
  }

  /** The key fact: once all rows are written, the rows that name a queued container are exactly its
      children, in order, and each of them is rebuilt as it was. */
  lemma {:induction false} QueueIsRebuilt(places: Places, rows: seq<Row>, queue: seq<Block>, n: nat, b: Block)
    requires Queued(rows, queue, n) && places.last <= FIRST_ID && b in queue
    ensures BuildAll(places, rows, b.sid, b.sid - FIRST_ID) == b.tree.children
    decreases Weight(queue)
  {
    hide QueueFor, Bfs, BuildAll, Queued, WellFormed;
    var ts := queue[0].tree.children;
    var q := queue[1..] + QueueFor(ts, n);
    QueuedStep(rows, queue, n);
    QueueForWeight(ts, n);
    WeightAppend(queue[1..], QueueFor(ts, n));
    QueuedFacts(rows, queue, n, b);
    if b in queue[1..] {
      assert b in q;
      QueueIsRebuilt(places, rows, q, n + |ts|, b);
    } else {
      assert b == queue[0];
      forall i | n <= i < n + |ts| ensures rows[i].pid == b.sid && Build(places, rows, i) == ts[i - n] {
        assert rows[i] == rows[n..n + |ts|][i - n];
        ChildIsRebuilt(places, rows, queue, n, i - n);
      }
      BuildAllSkip(places, rows, b.sid, b.sid - FIRST_ID, n);
      BuildAllStretch(places, rows, b.sid, n, ts);
      forall i | n + |ts| <= i < |rows| ensures rows[i].pid != b.sid {
        LaterRow(rows, queue, n, i);
      }
      BuildAllSkip(places, rows, b.sid, n + |ts|, |rows|);
      BuildAllEnd(places, rows, b.sid);
      assert ts + [] == ts;
    }
  }

  lemma QueuedFacts(rows: seq<Row>, queue: seq<Block>, n: nat, b: Block)
    requires Queued(rows, queue, n) && b in queue
    ensures FIRST_ID < b.sid <= FIRST_ID + n <= FIRST_ID + |rows| && forall i | 0 <= i < n :: rows[i].pid != b.sid
  {
    hide Bfs, WellFormed;
  }

  lemma BuildAllEnd(places: Places, rows: seq<Row>, sid: int)
    ensures BuildAll(places, rows, sid, |rows|) == []
  {
  }

  /** Rows written after a container's children never name that container again. */
  lemma LaterRow(rows: seq<Row>, queue: seq<Block>, n: nat, i: nat)
    requires Queued(rows, queue, n) && queue != []
    requires n + |queue[0].tree.children| <= i < |rows|
    ensures rows[i].pid != queue[0].sid
  {
    hide QueueFor, Bfs, WellFormed;
    var ts := queue[0].tree.children;
    var q := queue[1..] + QueueFor(ts, n);
    var m := n + |ts|;
    QueuedStep(rows, queue, n);
    assert rows[i] == rows[m..][i - m];
    BfsPids(q, m, rows[i]);
    QueueForIds(ts, n);
    if b :| b in q && b.sid == rows[i].pid {
      assert b in queue[1..] || b in QueueFor(ts, n);
    }
  }

  lemma {:induction false} ChildIsRebuilt(places: Places, rows: seq<Row>, queue: seq<Block>, n: nat, j: nat)
    requires Queued(rows, queue, n) && places.last <= FIRST_ID && queue != [] && j < |queue[0].tree.children|
    ensures n + j < |rows| && Build(places, rows, n + j) == queue[0].tree.children[j]
    decreases Weight(queue), 0
  {
    hide QueueFor, Bfs, BuildAll;
    var ts := queue[0].tree.children;
    var q := queue[1..] + QueueFor(ts, n);
    QueuedStep(rows, queue, n);
    QueueForWeight(ts, n);
    WeightAppend(queue[1..], QueueFor(ts, n));
    assert rows[n + j] == rows[n..n + |ts|][j];
    if ts[j].payload.container {
      var b := Block(ts[j], FIRST_ID + n + j + 1);
      QueueForAll(ts, n, j);
      assert b in q;
      QueueIsRebuilt(places, rows, q, n + |ts|, b);
    } else {
      assert WellFormed(ts[j]);
    }
  }

  // ---------------------------------------------------------------------
  // The whole forest
  // ---------------------------------------------------------------------

  predicate Savable(places: Places, list: seq<Placed>) {
    places.last <= FIRST_ID && forall p <- list :: IsRoot(places, p.pid) && WellFormed(p.tree)
  }

  lemma {:induction false} BfsNumbered(queue: seq<Block>, n: nat)
    ensures forall i | 0 <= i < |Bfs(queue, n)| :: Bfs(queue, n)[i].sid == FIRST_ID + n + 1 + i
    decreases Weight(queue)
  {
    hide QueueFor;
    if queue != [] {
      var ts := queue[0].tree.children;
      QueueForWeight(ts, n);
      WeightAppend(queue[1..], QueueFor(ts, n));
      BfsNumbered(queue[1..] + QueueFor(ts, n), n + |ts|);
    }
  }

  lemma FlattenNumbered(list: seq<Placed>)
    ensures Numbered(Flatten(list))
    ensures Flatten(list)[|list|..] == Bfs(QueueFor(Trees(list), 0), |list|)
  {
    hide QueueFor, Bfs;
    var rows := Flatten(list);
    var q := QueueFor(Trees(list), 0);
    BfsNumbered(q, |list|);
    forall i | 0 <= i < |rows| ensures rows[i].sid == FIRST_ID + 1 + i {
      if i >= |list| { assert rows[i] == Bfs(q, |list|)[i - |list|]; }
    }
  }

  lemma RootsQueued(places: Places, list: seq<Placed>)
    requires Savable(places, list)
    ensures Queued(Flatten(list), QueueFor(Trees(list), 0), |list|)
  {
    hide QueueFor, Bfs, WellFormed, Flatten, Trees;
    QueueForIds(Trees(list), 0);
    RootRowCount(list);
    FlattenNumbered(list);
    forall i | 0 <= i < |list| ensures Flatten(list)[i].pid <= FIRST_ID {
      RootRow(list, i);
    }
    forall b | b in QueueFor(Trees(list), 0) ensures WellFormed(b.tree) {
      var k := b.sid - FIRST_ID - 1;
      assert Trees(list)[k] == list[k].tree;
      assert list[k] in list;
    }
  }

  lemma RootIsRebuilt(places: Places, list: seq<Placed>, j: nat)
    requires Savable(places, list) && j < |list|
    ensures j < |Flatten(list)| && Build(places, Flatten(list), j) == list[j].tree
  {
    hide QueueFor, Bfs, BuildAll, Queued;
    var rows := Flatten(list);
    RootsQueued(places, list);
    if list[j].tree.payload.container {
      QueueForAll(Trees(list), 0, j);
      var b := Block(list[j].tree, FIRST_ID + j + 1);
      QueueIsRebuilt(places, rows, QueueFor(Trees(list), 0), |list|, b);
    } else {
      assert WellFormed(list[j].tree);
    }
  }

  /** Rows of held items are never taken for top level ones. */
  lemma HeldRowIsNoRoot(places: Places, list: seq<Placed>, i: nat)
    requires Savable(places, list) && |list| <= i < |Flatten(list)|
    ensures !IsRoot(places, Flatten(list)[i].pid)
  {
    hide QueueFor, Bfs, WellFormed;
    var q := QueueFor(Trees(list), 0);
    var r := Flatten(list)[i];
    assert r == Bfs(q, |list|)[i - |list|];
    BfsPids(q, |list|, r);
    QueueForIds(Trees(list), 0);
  }

  lemma {:induction false} ForestFrom(places: Places, list: seq<Placed>, from: nat)
    requires Savable(places, list) && from <= |Flatten(list)|
    ensures Forest(places, Flatten(list), from) == if from <= |list| then list[from..] else []
    decreases |Flatten(list)| - from
  {
    hide Flatten, Build, WellFormed;
    if from < |Flatten(list)| {
      ForestFrom(places, list, from + 1);
      if from < |list| {
        RootIsRebuilt(places, list, from);
        RootRow(list, from);
        assert list[from..] == [list[from]] + list[from + 1..];
      } else {
        HeldRowIsNoRoot(places, list, from);
      }
    } else {
      RootRowCount(list);
    }
  }

  lemma RootRow(list: seq<Placed>, j: nat)
    requires j < |list|
    ensures j < |Flatten(list)| && Flatten(list)[j] == Row(list[j].pid, FIRST_ID + j + 1, list[j].tree.payload)
  {
  }

  lemma RootRowCount(list: seq<Placed>)
    ensures |Flatten(list)| >= |list|
  {
  }

  /** Saving a forest and reading its rows gives the same forest: the same items in the same places, and
      the same children in the same order, all the way down. */
  lemma ForestRoundTrip(places: Places, list: seq<Placed>)
    requires Savable(places, list)
    ensures Forest(places, Flatten(list), 0) == list
  {
    hide Flatten, Savable;
    ForestFrom(places, list, 0);
  }

  /** Ids are consecutive, lie above every place of the player, and a child's id exceeds its parent's. */
  lemma IdsAscend(places: Places, list: seq<Placed>)
    requires Savable(places, list)
    ensures Numbered(Flatten(list))
    ensures forall i | 0 <= i < |Flatten(list)| :: Flatten(list)[i].pid < Flatten(list)[i].sid
  {
    hide QueueFor, Bfs, WellFormed;
    FlattenNumbered(list);
    var q := QueueFor(Trees(list), 0);
    QueueForIds(Trees(list), 0);
    BfsAscend(q, |list|);
    forall i | 0 <= i < |Flatten(list)| ensures Flatten(list)[i].pid < Flatten(list)[i].sid {
      if i >= |list| { assert Flatten(list)[i] == Bfs(q, |list|)[i - |list|]; }
    }
  }

  lemma {:induction false} BfsAscend(queue: seq<Block>, n: nat)
    requires forall b <- queue :: b.sid <= FIRST_ID + n
    ensures forall r <- Bfs(queue, n) :: r.pid < r.sid
    decreases Weight(queue)
  {
    hide QueueFor;
    if queue != [] {
      var ts := queue[0].tree.children;
      var q := QueueFor(ts, n);
      QueueForWeight(ts, n);
      WeightAppend(queue[1..], q);
      QueueForIds(ts, n);
      forall b | b in queue[1..] + q ensures b.sid <= FIRST_ID + n + |ts| {
        assert b in queue[1..] || b in q;
      }
      BfsAscend(queue[1..] + q, n + |ts|);
    }
  }

  // ---------------------------------------------------------------------
  // The items themselves
  // ---------------------------------------------------------------------

  function PayloadOf(x: Item): Payload
    reads x`ty, x`attributes, x`count
  {
    Payload(x.ty, x.attributes, x.count, x.container, x.maxSize)
  }

  /** The tree an item stands for. */
  ghost function Snapshot(x: Item, w: set<Item>): Tree
    requires x in w && Links(w)
    reads w
    decreases x.rank, 1, 0
  {
    Held(x, w);
    Tree(PayloadOf(x), Snapshots(x.itemlist, x.rank, w))
  }

  ghost function Snapshots(s: seq<Item>, bound: nat, w: set<Item>): (ts: seq<Tree>)
    requires Links(w) && forall x <- s :: x in w && x.rank < bound
    reads w
    ensures |ts| == |s| && forall k | 0 <= k < |s| :: ts[k] == Snapshot(s[k], w)
    decreases bound, 0, |s|
  {
    if s == [] then [] else [Snapshot(s[0], w)] + Snapshots(s[1..], bound, w)
  }

  lemma {:induction false} SnapshotWellFormed(x: Item, w: set<Item>)
    requires x in w && Links(w)
    ensures WellFormed(Snapshot(x, w))
    decreases x.rank
  {
    hide LinkOk;
    Held(x, w);
    var ts := Snapshots(x.itemlist, x.rank, w);
    forall t | t in ts ensures WellFormed(t) {
      var k :| 0 <= k < |ts| && ts[k] == t;
      assert x.itemlist[k] in x.itemlist;
      SnapshotWellFormed(x.itemlist[k], w);
    }
  }

  /** An item saved at the top level, with its slot or depot. */
  datatype ItemBlock = ItemBlock(pid: int, item: Item)

  ghost function PlacedItems(list: seq<ItemBlock>, w: set<Item>): (ps: seq<Placed>)
    requires Links(w) && forall b <- list :: b.item in w
    reads w
    ensures |ps| == |list| && forall k | 0 <= k < |list| :: ps[k] == Placed(list[k].pid, Snapshot(list[k].item, w))
  {
    if list == [] then [] else [Placed(list[0].pid, Snapshot(list[0].item, w))] + PlacedItems(list[1..], w)
  }

  /** A container waiting for its contents to be written, with its own id. */
  datatype ContainerBlock = ContainerBlock(container: Item, sid: int)

  ghost function Blocks(s: seq<ContainerBlock>, w: set<Item>): (bs: seq<Block>)
    requires Links(w) && forall b <- s :: b.container in w
    reads w
    ensures |bs| == |s| && forall k | 0 <= k < |s| :: bs[k] == Block(Snapshot(s[k].container, w), s[k].sid)
  {
    if s == [] then [] else [Block(Snapshot(s[0].container, w), s[0].sid)] + Blocks(s[1..], w)
  }

  lemma BlocksAppend(a: seq<ContainerBlock>, b: seq<ContainerBlock>, w: set<Item>)
    requires Links(w) && (forall x <- a :: x.container in w) && (forall x <- b :: x.container in w)
    ensures Blocks(a + b, w) == Blocks(a, w) + Blocks(b, w)
  {
    hide Snapshot, LinkOk, Blocks;
    forall k | 0 <= k < |a + b| ensures Blocks(a + b, w)[k] == (Blocks(a, w) + Blocks(b, w))[k] {
    }
  }

  lemma SnapshotPayload(x: Item, w: set<Item>)
    requires x in w && Links(w)
    ensures Snapshot(x, w).payload == PayloadOf(x)
  {
  }

  lemma {:induction false} RowsForSnoc(pid: int, ts: seq<Tree>, t: Tree, n: nat)
    ensures RowsFor(pid, ts + [t], n) == RowsFor(pid, ts, n) + [Row(pid, FIRST_ID + n + |ts| + 1, t.payload)]
  {
  }

  lemma {:induction false} QueueForSnoc(ts: seq<Tree>, t: Tree, n: nat)
    ensures QueueFor(ts + [t], n) ==
            QueueFor(ts, n) + if t.payload.container then [Block(t, FIRST_ID + n + |ts| + 1)] else []
  {
    hide QueueFor;
    NoQueue(n);
    NoQueue(n + 1);
    QueueHead(ts + [t], n);
    if ts == [] {
      assert (ts + [t])[1..] == [];
    } else {
      QueueHead(ts, n);
      assert (ts + [t])[1..] == ts[1..] + [t];
      QueueForSnoc(ts[1..], t, n + 1);
    }
  }

  lemma RootRowsSnoc(list: seq<Placed>, p: Placed, n: nat)
    ensures RootRows(list + [p], n) == RootRows(list, n) + [Row(p.pid, FIRST_ID + n + |list| + 1, p.tree.payload)]
    ensures Trees(list + [p]) == Trees(list) + [p.tree]
  {
  }

  /** Writes the top level rows. */
  method SaveRoots(itemList: seq<ItemBlock>, ghost w: set<Item>) returns (rows: seq<Row>, containers: seq<ContainerBlock>)
    requires Links(w) && forall b <- itemList :: b.item in w
    ensures forall b <- containers :: b.container in w
    ensures rows == RootRows(PlacedItems(itemList, w), 0)
    ensures Blocks(containers, w) == QueueFor(Trees(PlacedItems(itemList, w)), 0)
  {
    hide LinkOk, Snapshot, PlacedItems, Blocks, Trees, RootRows;
    ghost var all := PlacedItems(itemList, w);
    rows, containers := [], [];
    var runningId := FIRST_ID;
    var i := 0;
    while i < |itemList|
      invariant i <= |itemList| && runningId == FIRST_ID + i
      invariant forall b <- containers :: b.container in w
      invariant rows == RootRows(all[..i], 0)
      invariant Blocks(containers, w) == QueueFor(Trees(all[..i]), 0)
    {
      var pid, item := itemList[i].pid, itemList[i].item;
      assert all[..i + 1] == all[..i] + [all[i]];
      SnapshotPayload(item, w);
      RootRowsSnoc(all[..i], all[i], 0);
      QueueForSnoc(Trees(all[..i]), all[i].tree, 0);
      runningId := runningId + 1;
      rows := rows + [Row(pid, runningId, PayloadOf(item))];
      if item.container {
        BlocksSnoc(containers, item, runningId, w);
        containers := containers + [ContainerBlock(item, runningId)];
      }
      i := i + 1;
    }
    assert all[..i] == all;
  }

  lemma BlocksSnoc(found: seq<ContainerBlock>, item: Item, sid: int, w: set<Item>)
    requires Links(w) && item in w && forall b <- found :: b.container in w
    ensures Blocks(found + [ContainerBlock(item, sid)], w) == Blocks(found, w) + [Block(Snapshot(item, w), sid)]
  {
    hide LinkOk, Snapshot;
    BlocksAppend(found, [ContainerBlock(item, sid)], w);
    assert Blocks([ContainerBlock(item, sid)], w) == [Block(Snapshot(item, w), sid)];
  }

  /** One more item of a container: its row, and its place in the queue if it is a container. */
  lemma ContentsStep(pid: int, ts: seq<Tree>, i: nat, n: nat, item: Item, w: set<Item>)
    requires Links(w) && item in w && i < |ts| && ts[i] == Snapshot(item, w)
    ensures var sid := FIRST_ID + n + i + 1;
      && RowsFor(pid, ts[..i + 1], n) == RowsFor(pid, ts[..i], n) + [Row(pid, sid, PayloadOf(item))]
      && QueueFor(ts[..i + 1], n) == QueueFor(ts[..i], n) + if item.container then [Block(ts[i], sid)] else []
  {
    hide LinkOk, Snapshot, RowsFor, QueueFor;
    assert ts[..i + 1] == ts[..i] + [ts[i]];
    SnapshotPayload(item, w);
    RowsForSnoc(pid, ts[..i], ts[i], n);
    QueueForSnoc(ts[..i], ts[i], n);
  }

  /** Writes the rows of one container's items and queues the containers among them. */
  method SaveContents(block: ContainerBlock, rows0: seq<Row>, ghost w: set<Item>)
    returns (rows: seq<Row>, found: seq<ContainerBlock>)
    requires block.container in w && Links(w)
    ensures forall b <- found :: b.container in w
    ensures rows == rows0 + RowsFor(block.sid, Snapshot(block.container, w).children, |rows0|)
    ensures Blocks(found, w) == QueueFor(Snapshot(block.container, w).children, |rows0|)
  {
    hide LinkOk, Snapshot, Blocks, RowsFor, QueueFor;
    var container, parentId := block.container, block.sid;
    Held(container, w);
    SnapshotChildren(container, w);
    ghost var ts := Snapshots(container.itemlist, container.rank, w);
    ghost var n := |rows0|;
    var runningId := FIRST_ID + |rows0|;
    rows, found := rows0, [];
    assert RowsFor(parentId, [], n) == [];
    assert QueueFor([], n) == [] by { NoQueue(n); }
    var i := 0;
    while i < |container.itemlist|
      invariant i <= |container.itemlist| && runningId == FIRST_ID + n + i
      invariant forall b <- found :: b.container in w
      invariant rows == rows0 + RowsFor(parentId, ts[..i], n)
      invariant Blocks(found, w) == QueueFor(ts[..i], n)
    {
      var item := container.itemlist[i];
      ContentsStep(parentId, ts, i, n, item, w);
      runningId := runningId + 1;
      if item.container {
        BlocksSnoc(found, item, runningId, w);
        found := found + [ContainerBlock(item, runningId)];
      }
      Assoc(rows0, RowsFor(parentId, ts[..i], n), [Row(parentId, runningId, PayloadOf(item))]);
      rows := rows + [Row(parentId, runningId, PayloadOf(item))];
      i := i + 1;
    }
    assert ts[..i] == ts;
  }

  lemma NoQueue(n: nat)
    ensures QueueFor([], n) == []
  {
  }

  lemma SnapshotChildren(x: Item, w: set<Item>)
    requires x in w && Links(w) && forall y <- x.itemlist :: y in w && y.rank < x.rank
    ensures Snapshot(x, w).children == Snapshots(x.itemlist, x.rank, w)
  {
  }

  /** Saves the items of a player: top level rows first, then container by container. */
  method SaveItems(itemList: seq<ItemBlock>, ghost w: set<Item>) returns (rows: seq<Row>)
    requires Links(w) && forall b <- itemList :: b.item in w
    ensures rows == Flatten(PlacedItems(itemList, w))
  {
    hide LinkOk, Snapshot, PlacedItems, Blocks, Trees, RootRows, RowsFor, QueueFor;
    var containers;
    rows, containers := SaveRoots(itemList, w);
    ghost var all := Flatten(PlacedItems(itemList, w));
    var i := 0;
    while i < |containers|
      invariant i <= |containers| && forall b <- containers :: b.container in w
      invariant rows + Bfs(Blocks(containers[i..], w), |rows|) == all
      decreases Weight(Blocks(containers[i..], w))
    {
      ghost var before := rows;
      ghost var ts := Snapshot(containers[i].container, w).children;
      var found;
      rows, found := SaveContents(containers[i], rows, w);
      BlocksStep(containers, i, found, |before|, w);
      Assoc(before, RowsFor(containers[i].sid, ts, |before|), Bfs(Blocks(containers[i + 1..] + found, w), |rows|));
      assert (containers + found)[i + 1..] == containers[i + 1..] + found;
      containers := containers + found;
      i := i + 1;
    }
    assert Blocks([], w) == [];
    assert rows + [] == rows;
  }

  lemma BlocksStep(containers: seq<ContainerBlock>, i: nat, found: seq<ContainerBlock>, n: nat, w: set<Item>)
    requires Links(w) && i < |containers| && (forall b <- containers :: b.container in w) && (forall b <- found :: b.container in w)
    requires Blocks(found, w) == QueueFor(Snapshot(containers[i].container, w).children, n)
    ensures var ts := Snapshot(containers[i].container, w).children;
            && Bfs(Blocks(containers[i..], w), n)
               == RowsFor(containers[i].sid, ts, n) + Bfs(Blocks(containers[i + 1..] + found, w), n + |ts|)
            && Weight(Blocks(containers[i + 1..] + found, w)) < Weight(Blocks(containers[i..], w))
  {
    hide LinkOk, Snapshot, RowsFor, QueueFor;
    var queue := Blocks(containers[i..], w);
    var ts := Snapshot(containers[i].container, w).children;
    assert queue[0] == Block(Snapshot(containers[i].container, w), containers[i].sid);
    assert containers[i..][1..] == containers[i + 1..];
    assert queue[1..] == Blocks(containers[i + 1..], w);
    BlocksAppend(containers[i + 1..], found, w);
    BfsUnfold(queue, n);
    QueueForWeight(ts, n);
    WeightAppend(queue[1..], QueueFor(ts, n));
  }

  // ---------------------------------------------------------------------
  // Rebuilding, from the highest id down
  // ---------------------------------------------------------------------

  /** Rows in the order of their ids, every held item below its container: what a save produces. */
  ghost predicate Loadable(places: Places, rows: seq<Row>) {
    && (forall i, j | 0 <= i < j < |rows| :: rows[i].sid < rows[j].sid)
    && (forall i | 0 <= i < |rows| && !IsRoot(places, rows[i].pid) :: rows[i].pid < rows[i].sid)
  }

  /** The objects of the rows from `from` on that hang under an id. */
  function Attached(places: Places, rows: seq<Row>, objs: seq<Item>, sid: int, from: nat): seq<Item>
    requires |objs| == |rows| && from <= |rows|
    decreases |rows| - from
  {
    if from == |rows| then []
    else (if !IsRoot(places, rows[from].pid) && rows[from].pid == sid then [objs[from]] else [])
         + Attached(places, rows, objs, sid, from + 1)
  }

  /** The objects of the rows from `from` on that lie in one place of the player. */
  function InPlace(places: Places, rows: seq<Row>, objs: seq<Item>, pid: int, from: nat): seq<Item>
    requires |objs| == |rows| && from <= |rows|
    decreases |rows| - from
  {
    if from == |rows| then []
    else (if IsRoot(places, rows[from].pid) && rows[from].pid == pid then [objs[from]] else [])
         + InPlace(places, rows, objs, pid, from + 1)
  }

  /** The items created from the rows: all different, all in the world. */
  ghost predicate Created(rows: seq<Row>, objs: seq<Item>, w: set<Item>)
    reads objs`ty, objs`attributes, objs`count
  {
    && |objs| == |rows| && (forall o <- objs :: o in w) && Distinct(objs)
    && forall i | 0 <= i < |rows| :: PayloadOf(objs[i]) == rows[i].payload
  }

  /** With the rows from k on attached: every object holds exactly its rows, and the rest wait. */
  ghost predicate Partly(places: Places, rows: seq<Row>, objs: seq<Item>, k: nat, w: set<Item>)
    reads objs`itemlist, objs`parent, objs`ty, objs`attributes, objs`count
  {
    && Created(rows, objs, w) && k <= |rows|
    && (forall i | 0 <= i < |rows| ::
          objs[i].itemlist == if objs[i].container then Attached(places, rows, objs, rows[i].sid, k) else [])
    && (forall i | 0 <= i < k :: objs[i].parent == null)
  }

  /** Creates an item for every row; the cursor runs from the highest id down. */
  method LoadItems(rows: seq<Row>, ghost w0: set<Item>) returns (objs: seq<Item>, ghost w: set<Item>)
    requires Valid(w0)
    ensures w0 <= w && fresh(w - w0) && Valid(w) && Created(rows, objs, w)
    ensures forall o <- objs :: o in w - w0 && o.parent == null && o.itemlist == []
  {
    hide LinkOk, TotalOk, Distinct, Valid, Holding;
    assert Holding([], []) by { NoneHeld(); }
    assert Distinct([]) by { NoneDistinct(); }
    objs, w := [], w0;
    var k := |rows|;
    assert rows[k..] == [];
    while k > 0
      invariant 0 <= k <= |rows| && |objs| == |rows| - k
      invariant w0 <= w && fresh(w - w0) && Valid(w) && Distinct(objs)
      invariant forall o <- objs :: o in w - w0 && o.parent == null && o.itemlist == []
      invariant Holding(objs, rows[k..])
    {
      k := k - 1;
      var p := rows[k].payload;
      var item := new Item(p.ty, p.attributes, p.count, p.container, p.maxSize);
      WithFresh(w, item);
      w := w + {item};
      DistinctCons(item, objs);
      assert rows[k..] == [rows[k]] + rows[k + 1..];
      HoldingCons(item, objs, rows[k], rows[k + 1..]);
      objs := [item] + objs;
    }
    assert rows[k..] == rows;
    AllCreated(objs, rows, w);
  }

  lemma AllCreated(objs: seq<Item>, rows: seq<Row>, w: set<Item>)
    requires Holding(objs, rows) && Distinct(objs) && forall o <- objs :: o in w
    ensures Created(rows, objs, w)
  {
    hide Distinct;
  }

  /** Each object keeps what its row says. */
  ghost predicate Holding(objs: seq<Item>, rows: seq<Row>)
    reads objs`ty, objs`attributes, objs`count
  {
    |objs| == |rows| && forall i | 0 <= i < |objs| :: PayloadOf(objs[i]) == rows[i].payload
  }

  lemma NoneHeld()
    ensures Holding([], [])
  {
  }

  lemma HoldingCons(x: Item, objs: seq<Item>, row: Row, rows: seq<Row>)
    requires Holding(objs, rows) && PayloadOf(x) == row.payload
    ensures Holding([x] + objs, [row] + rows)
  {
  }

  lemma NoneDistinct()
    ensures Distinct([])
  {
  }

  lemma DistinctCons(x: Item, s: seq<Item>)
    requires x !in s && Distinct(s)
    ensures Distinct([x] + s) && ([x] + s)[1..] == s && forall y :: y in [x] + s <==> y == x || y in s
    ensures forall i | 0 <= i < |s| :: ([x] + s)[i + 1] == s[i]
  {
  }

  method FindRow(rows: seq<Row>, sid: int) returns (i: int)
    ensures -1 <= i < |rows|
    ensures i == -1 ==> forall j | 0 <= j < |rows| :: rows[j].sid != sid
    ensures i >= 0 ==> rows[i].sid == sid
  {
    i := 0;
    while i < |rows|
      invariant 0 <= i <= |rows| && forall j | 0 <= j < i :: rows[j].sid != sid
    {
      if rows[i].sid == sid {
        return;
      }
      i := i + 1;
    }
    return -1;
  }

  lemma AttachedStep(places: Places, rows: seq<Row>, objs: seq<Item>, sid: int, k: nat)
    requires |objs| == |rows| && k < |rows|
    ensures Attached(places, rows, objs, sid, k) ==
            (if !IsRoot(places, rows[k].pid) && rows[k].pid == sid then [objs[k]] else [])
            + Attached(places, rows, objs, sid, k + 1)
  {
  }

  lemma InPlaceStep(places: Places, rows: seq<Row>, objs: seq<Item>, pid: int, k: nat)
    requires |objs| == |rows| && k < |rows|
    ensures InPlace(places, rows, objs, pid, k) ==
            (if IsRoot(places, rows[k].pid) && rows[k].pid == pid then [objs[k]] else [])
            + InPlace(places, rows, objs, pid, k + 1)
  {
  }

  lemma RootsAncestors(c: Item, w: set<Item>)
    requires c in w && Links(w) && c.parent == null
    ensures Ancestors(c, w) == {c}
  {
  }

  lemma UniqueIds(places: Places, rows: seq<Row>)
    requires Loadable(places, rows)
    ensures forall i, j | 0 <= i < |rows| && 0 <= j < |rows| :: rows[i].sid < rows[j].sid <==> i < j
  {
    forall i, j | 0 <= i < |rows| && 0 <= j < |rows| ensures rows[i].sid < rows[j].sid <==> i < j {
      if j < i { assert rows[j].sid < rows[i].sid; }
    }
  }

  /** A held row whose parent is row i goes to the front of row i's object. */
  method AttachTo(places: Places, rows: seq<Row>, objs: seq<Item>, i: nat, k: nat, container: Item, item: Item, ghost w: set<Item>)
    requires Valid(w) && Loadable(places, rows) && k < |rows| && Partly(places, rows, objs, k + 1, w)
    requires !IsRoot(places, rows[k].pid) && i < |rows| && rows[i].sid == rows[k].pid && objs[i].container
    requires container == objs[i] && item == objs[k]
    modifies w`rank, w`totalWeight, item`parent, container`itemlist
    ensures Valid(w) && Partly(places, rows, objs, k, w)
  {
    hide LinkOk, Valid, Attached, Links, Created;
    CreatedFacts(rows, objs, w);
    UniqueIds(places, rows);
    ValidLinks(w);
    RootsAncestors(container, w);
    InternalAddThing(container, item, w);
    forall m | 0 <= m < |rows| ensures objs[m].itemlist ==
      if objs[m].container then Attached(places, rows, objs, rows[m].sid, k) else []
    {
      AttachedStep(places, rows, objs, rows[m].sid, k);
      if m != i {
        assert rows[m].sid != rows[i].sid;
        assert objs[m] != objs[i];
      }
    }
  }

  /** A held row that names no container stays outside the forest. */
  lemma NothingToAttach(places: Places, rows: seq<Row>, objs: seq<Item>, k: nat, w: set<Item>)
    requires k < |rows| && Partly(places, rows, objs, k + 1, w)
    requires !IsRoot(places, rows[k].pid)
    requires forall m | 0 <= m < |rows| && objs[m].container :: rows[m].sid != rows[k].pid
    ensures Partly(places, rows, objs, k, w)
  {
    hide Attached;
    forall m | 0 <= m < |rows| && objs[m].container {
      AttachedStep(places, rows, objs, rows[m].sid, k);
    }
  }

  /** Attaches a held row: to the object of the row it names, if there is one and it is a container. */
  method AttachHeld(places: Places, rows: seq<Row>, objs: seq<Item>, k: nat, ghost w: set<Item>)
    requires Valid(w) && Loadable(places, rows) && k < |rows| && Partly(places, rows, objs, k + 1, w)
    requires !IsRoot(places, rows[k].pid)
    modifies w`rank, w`totalWeight, objs`parent, objs`itemlist
    ensures Valid(w) && Partly(places, rows, objs, k, w)
  {
    hide LinkOk, Valid, Attached, Links, Created;
    CreatedFacts(rows, objs, w);
    UniqueIds(places, rows);
    var i := FindRow(rows, rows[k].pid);
    if i != -1 && objs[i].container {
      AttachTo(places, rows, objs, i, k, objs[i], objs[k], w);
    } else {
      NothingToAttach(places, rows, objs, k, w);
    }
  }

  lemma CreatedFacts(rows: seq<Row>, objs: seq<Item>, w: set<Item>)
    requires Created(rows, objs, w)
    ensures |objs| == |rows| && Distinct(objs)
    ensures forall i | 0 <= i < |objs| :: objs[i] in w
  {
  }

  lemma ValidLinks(w: set<Item>)
    requires Valid(w)
    ensures Links(w)
  {
  }

  // ---------------------------------------------------------------------
  // What the rebuilt objects stand for
  // ---------------------------------------------------------------------

  lemma {:induction false} AttachedSnapshots(places: Places, rows: seq<Row>, objs: seq<Item>, sid: int, from: nat, bound: nat, w: set<Item>)
    requires Links(w) && Loadable(places, rows) && from <= |rows| && Partly(places, rows, objs, 0, w)
    requires forall o <- Attached(places, rows, objs, sid, from) :: o in w && o.rank < bound
    ensures Snapshots(Attached(places, rows, objs, sid, from), bound, w) == BuildAll(places, rows, sid, from)
    decreases |rows| - from, 2
  {
    hide LinkOk, Snapshot, Build, Partly, Loadable, Attached, BuildAll, Snapshots;
    PartlyCount(places, rows, objs, w);
    NoneAttached(places, rows, objs, sid, bound, w);
    if from < |rows| {
      BuildAllStep(places, rows, sid, from);
      AttachedStep(places, rows, objs, sid, from);
      AttachedSnapshots(places, rows, objs, sid, from + 1, bound, w);
      if !IsRoot(places, rows[from].pid) && rows[from].pid == sid {
        ObjectStandsForRow(places, rows, objs, from, w);
        SnapshotsCons(objs[from], Attached(places, rows, objs, sid, from + 1), bound, w);
      }
    }
  }

  lemma NoneAttached(places: Places, rows: seq<Row>, objs: seq<Item>, sid: int, bound: nat, w: set<Item>)
    requires |objs| == |rows| && Links(w)
    ensures Attached(places, rows, objs, sid, |rows|) == [] && BuildAll(places, rows, sid, |rows|) == []
    ensures Snapshots([], bound, w) == []
  {
    hide LinkOk, Snapshot;
  }

  lemma BuildAllStep(places: Places, rows: seq<Row>, sid: int, from: nat)
    requires from < |rows|
    ensures BuildAll(places, rows, sid, from) ==
            (if !IsRoot(places, rows[from].pid) && rows[from].pid == sid then [Build(places, rows, from)] else []) +
            BuildAll(places, rows, sid, from + 1)
  {
  }

  lemma PartlyCount(places: Places, rows: seq<Row>, objs: seq<Item>, w: set<Item>)
    requires Partly(places, rows, objs, 0, w)
    ensures |objs| == |rows| && forall o <- objs :: o in w
  {
  }

  /** Once every row is attached, each object is the tree its row describes. */
  lemma {:induction false} ObjectStandsForRow(places: Places, rows: seq<Row>, objs: seq<Item>, i: nat, w: set<Item>)
    requires Links(w) && Loadable(places, rows) && i < |rows| && Partly(places, rows, objs, 0, w)
    ensures objs[i] in w && Snapshot(objs[i], w) == Build(places, rows, i)
    decreases |rows| - i, 1
  {
    hide LinkOk, BuildAll, Attached, Snapshots, Loadable;
    PartlyCount(places, rows, objs, w);
    var x := objs[i];
    assert x in objs;
    Held(x, w);
    if x.container {
      LateRows(places, rows, objs, i);
      AttachedSnapshots(places, rows, objs, rows[i].sid, i + 1, x.rank, w);
    } else {
      assert Snapshots([], x.rank, w) == [];
    }
  }

  /** A child's id exceeds its parent's, so all children come after their parent. */
  lemma LateRows(places: Places, rows: seq<Row>, objs: seq<Item>, i: nat)
    requires Loadable(places, rows) && |objs| == |rows| && i < |rows|
    ensures Attached(places, rows, objs, rows[i].sid, 0) == Attached(places, rows, objs, rows[i].sid, i + 1)
  {
    UniqueIds(places, rows);
    AttachedSkip(places, rows, objs, rows[i].sid, 0, i + 1);
  }

  lemma {:induction false} AttachedSkip(places: Places, rows: seq<Row>, objs: seq<Item>, sid: int, a: nat, b: nat)
    requires |objs| == |rows| && a <= b <= |rows|
    requires forall j | a <= j < b && !IsRoot(places, rows[j].pid) :: rows[j].pid != sid
    ensures Attached(places, rows, objs, sid, a) == Attached(places, rows, objs, sid, b)
    decreases b - a
  {
    if a < b { AttachedSkip(places, rows, objs, sid, a + 1, b); }
  }

  /** The trees that lie in one place of the player, in order. */
  function Under(list: seq<Placed>, pid: int): seq<Tree> {
    if list == [] then [] else (if list[0].pid == pid then [list[0].tree] else []) + Under(list[1..], pid)
  }

  lemma SnapshotsCons(x: Item, s: seq<Item>, bound: nat, w: set<Item>)
    requires Links(w) && x in w && forall y <- s :: y in w && y.rank < bound
    ensures x.rank < bound ==> Snapshots([x] + s, bound, w) == [Snapshot(x, w)] + Snapshots(s, bound, w)
  {
    hide Snapshot, LinkOk;
    assert ([x] + s)[1..] == s;
  }

  lemma UnderCons(p: Placed, rest: seq<Placed>, pid: int)
    ensures Under([p] + rest, pid) == (if p.pid == pid then [p.tree] else []) + Under(rest, pid)
  {
    assert ([p] + rest)[1..] == rest;
  }

  lemma {:induction false} PlaceSnapshots(places: Places, rows: seq<Row>, objs: seq<Item>, pid: int, from: nat, bound: nat, w: set<Item>)
    requires Links(w) && Loadable(places, rows) && from <= |rows| && Partly(places, rows, objs, 0, w)
    requires forall o <- InPlace(places, rows, objs, pid, from) :: o in w && o.rank < bound
    ensures Snapshots(InPlace(places, rows, objs, pid, from), bound, w) == Under(Forest(places, rows, from), pid)
    decreases |rows| - from
  {
    hide LinkOk, Snapshot, Build, Partly, Loadable;
    PartlyCount(places, rows, objs, w);
    if from < |rows| {
      InPlaceStep(places, rows, objs, pid, from);
      PlaceSnapshots(places, rows, objs, pid, from + 1, bound, w);
      if IsRoot(places, rows[from].pid) {
        ObjectStandsForRow(places, rows, objs, from, w);
        var p := Placed(rows[from].pid, Build(places, rows, from));
        assert Forest(places, rows, from) == [p] + Forest(places, rows, from + 1);
        UnderCons(p, Forest(places, rows, from + 1), pid);
        SnapshotsCons(objs[from], InPlace(places, rows, objs, pid, from + 1), bound, w);
      } else {
        assert InPlace(places, rows, objs, pid, from) == InPlace(places, rows, objs, pid, from + 1);
        assert Forest(places, rows, from) == Forest(places, rows, from + 1);
      }
    }
  }

  // ---------------------------------------------------------------------
  // The load loops
  // ---------------------------------------------------------------------

  /** The depot chests of a player, one per depot id, standing apart from the items being loaded. */
  ghost predicate Chests(places: Places, chests: map<int, Item>, objs: seq<Item>, w: set<Item>)
    reads chests.Values`parent
  {
    && (forall p | IsRoot(places, p) :: p in chests)
    && (forall p | p in chests :: chests[p] in w && chests[p] !in objs && chests[p].container && chests[p].parent == null)
    && (forall p, q | p in chests && q in chests && p != q :: chests[p] != chests[q])
  }

  /** The rows from k on are in their places. */
  ghost predicate PlacedFrom(places: Places, rows: seq<Row>, objs: seq<Item>, chests: map<int, Item>, k: nat)
    requires |objs| == |rows| && k <= |rows|
    reads chests.Values`itemlist
  {
    forall p | p in chests :: chests[p].itemlist == InPlace(places, rows, objs, p, k)
  }

  method AttachRoot(places: Places, rows: seq<Row>, objs: seq<Item>, k: nat, chests: map<int, Item>, chest: Item, item: Item,
                    ghost w: set<Item>)
    requires Valid(w) && k < |rows| && Partly(places, rows, objs, k + 1, w) && Chests(places, chests, objs, w)
    requires PlacedFrom(places, rows, objs, chests, k + 1) && IsRoot(places, rows[k].pid)
    requires chest == chests[rows[k].pid] && item == objs[k]
    modifies w`rank, w`totalWeight, item`parent, chest`itemlist
    ensures Valid(w) && Partly(places, rows, objs, k, w) && Chests(places, chests, objs, w)
    ensures PlacedFrom(places, rows, objs, chests, k)
  {
    hide LinkOk, Valid, Links, Attached, InPlace, Created;
    CreatedFacts(rows, objs, w);
    ValidLinks(w);
    RootsAncestors(chest, w);
    assert item in objs;
    InternalAddThing(chest, item, w);
    forall m | 0 <= m < |rows| {
      AttachedStep(places, rows, objs, rows[m].sid, k);
    }
    forall p | p in chests {
      InPlaceStep(places, rows, objs, p, k);
    }
  }

  /** Loads depot items: every row is attached to its chest, or to the object of the row it names. */
  method RebuildDepot(rows: seq<Row>, chests: map<int, Item>, ghost w0: set<Item>) returns (objs: seq<Item>, ghost w: set<Item>)
    requires Valid(w0) && Loadable(DEPOTS, rows) && Chests(DEPOTS, chests, [], w0)
    requires forall p | p in chests :: chests[p].itemlist == []
    modifies w0
    ensures w0 <= w && fresh(w - w0) && Valid(w)
    ensures forall p | p in chests :: chests[p] in w && Links(w) &&
              Snapshot(chests[p], w).children == Under(Forest(DEPOTS, rows, 0), p)
  {
    hide LinkOk, TotalOk, Links, Valid, Attached, InPlace, Created, Loadable;
    objs, w := LoadItems(rows, w0);
    var k := |rows|;
    CreatedFacts(rows, objs, w);
    NothingAttached(DEPOTS, rows, objs, w);
    assert forall o <- objs :: fresh(o);
    while k > 0
      invariant 0 <= k <= |rows| == |objs|
      invariant forall o <- objs :: fresh(o)
      invariant Valid(w) && Partly(DEPOTS, rows, objs, k, w) && Chests(DEPOTS, chests, objs, w)
      invariant PlacedFrom(DEPOTS, rows, objs, chests, k)
    {
      k := k - 1;
      if IsRoot(DEPOTS, rows[k].pid) {
        AttachRoot(DEPOTS, rows, objs, k, chests, chests[rows[k].pid], objs[k], w);
      } else {
        forall p | p in chests { InPlaceStep(DEPOTS, rows, objs, p, k); }
        AttachHeld(DEPOTS, rows, objs, k, w);
      }
    }
    ValidLinks(w);
    DepotsStandForRows(rows, objs, chests, w);
  }

  lemma NothingAttached(places: Places, rows: seq<Row>, objs: seq<Item>, w: set<Item>)
    requires Created(rows, objs, w) && forall o <- objs :: o.parent == null && o.itemlist == []
    ensures Partly(places, rows, objs, |rows|, w)
    ensures forall p :: InPlace(places, rows, objs, p, |rows|) == []
  {
  }

  lemma DepotsStandForRows(rows: seq<Row>, objs: seq<Item>, chests: map<int, Item>, w: set<Item>)
    requires Links(w) && Loadable(DEPOTS, rows) && Partly(DEPOTS, rows, objs, 0, w) && |objs| == |rows|
    requires (forall p | p in chests :: chests[p] in w) && PlacedFrom(DEPOTS, rows, objs, chests, 0)
    ensures forall p | p in chests :: Snapshot(chests[p], w).children == Under(Forest(DEPOTS, rows, 0), p)
  {
    hide LinkOk, Loadable, Partly, Forest, InPlace, Under;
    forall p | p in chests ensures Snapshot(chests[p], w).children == Under(Forest(DEPOTS, rows, 0), p) {
      Held(chests[p], w);
      PlaceSnapshots(DEPOTS, rows, objs, p, 0, chests[p].rank, w);
    }
  }

  /** The slots filled by the rows from k on: the highest row of a slot is the one that got in. */
  ghost predicate SlotsFrom(places: Places, rows: seq<Row>, objs: seq<Item>, inventory: map<int, Item>, k: nat)
    requires |objs| == |rows| && k <= |rows|
  {
    forall p | IsRoot(places, p) ::
      var s := InPlace(places, rows, objs, p, k);
      if s == [] then p !in inventory else p in inventory && inventory[p] == s[|s| - 1]
  }

  lemma SlotStep(places: Places, rows: seq<Row>, objs: seq<Item>, inventory: map<int, Item>, k: nat)
    requires |objs| == |rows| && k < |rows| && SlotsFrom(places, rows, objs, inventory, k + 1)
    ensures !IsRoot(places, rows[k].pid) || rows[k].pid in inventory ==> SlotsFrom(places, rows, objs, inventory, k)
    ensures IsRoot(places, rows[k].pid) && rows[k].pid !in inventory ==>
              SlotsFrom(places, rows, objs, inventory[rows[k].pid := objs[k]], k)
  {
    hide InPlace;
    forall p {
      InPlaceStep(places, rows, objs, p, k);
    }
  }

  /** Loads inventory items; a slot that is already taken refuses the item. */
  method RebuildInventory(rows: seq<Row>)
    returns (inventory: map<int, Item>, objs: seq<Item>, ghost w: set<Item>)
    requires Loadable(INVENTORY, rows)
    ensures fresh(w) && Valid(w) && Links(w)
    ensures forall p | IsRoot(INVENTORY, p) ::
              var ts := Under(Forest(INVENTORY, rows, 0), p);
              if ts == [] then p !in inventory
              else p in inventory && inventory[p] in w && Snapshot(inventory[p], w) == ts[|ts| - 1]
  {
    hide LinkOk, TotalOk, Links, Valid, Attached, InPlace, Created, Loadable, SlotsFrom;
    EmptyWorld();
    objs, w := LoadItems(rows, {});
    inventory := map[];
    var k := |rows|;
    CreatedFacts(rows, objs, w);
    NothingAttached(INVENTORY, rows, objs, w);
    NoSlots(INVENTORY, rows, objs);
    assert forall o <- objs :: fresh(o);
    while k > 0
      invariant 0 <= k <= |rows| == |objs|
      invariant forall o <- objs :: fresh(o)
      invariant Valid(w) && Partly(INVENTORY, rows, objs, k, w) && SlotsFrom(INVENTORY, rows, objs, inventory, k)
    {
      k := k - 1;
      SlotStep(INVENTORY, rows, objs, inventory, k);
      if IsRoot(INVENTORY, rows[k].pid) {
        RootStays(INVENTORY, rows, objs, k, w);
        if rows[k].pid !in inventory {
          inventory := inventory[rows[k].pid := objs[k]];
        }
      } else {
        AttachHeld(INVENTORY, rows, objs, k, w);
      }
    }
    ValidLinks(w);
    SlotsStandForRows(rows, objs, inventory, w);
  }

  lemma EmptyWorld()
    ensures Valid({})
  {
  }

  lemma NoSlots(places: Places, rows: seq<Row>, objs: seq<Item>)
    requires |objs| == |rows|
    ensures SlotsFrom(places, rows, objs, map[], |rows|)
  {
  }

  lemma RootStays(places: Places, rows: seq<Row>, objs: seq<Item>, k: nat, w: set<Item>)
    requires k < |rows| && Partly(places, rows, objs, k + 1, w) && IsRoot(places, rows[k].pid)
    ensures Partly(places, rows, objs, k, w)
  {
    hide Attached;
    forall m | 0 <= m < |rows| {
      AttachedStep(places, rows, objs, rows[m].sid, k);
    }
  }

  lemma SlotsStandForRows(rows: seq<Row>, objs: seq<Item>, inventory: map<int, Item>, w: set<Item>)
    requires Links(w) && Loadable(INVENTORY, rows) && Partly(INVENTORY, rows, objs, 0, w) && |objs| == |rows|
    requires SlotsFrom(INVENTORY, rows, objs, inventory, 0)
    ensures forall p | IsRoot(INVENTORY, p) ::
              var ts := Under(Forest(INVENTORY, rows, 0), p);
              if ts == [] then p !in inventory
              else p in inventory && inventory[p] in w && Snapshot(inventory[p], w) == ts[|ts| - 1]
  {
    hide LinkOk, Loadable, Partly, Forest, InPlace, Under;
    forall p | IsRoot(INVENTORY, p)
      ensures var ts := Under(Forest(INVENTORY, rows, 0), p);
              if ts == [] then p !in inventory
              else p in inventory && inventory[p] in w && Snapshot(inventory[p], w) == ts[|ts| - 1]
    {
      var s := InPlace(INVENTORY, rows, objs, p, 0);
      var bound := RankBound(INVENTORY, rows, objs, p, 0, w);
      PlaceSnapshots(INVENTORY, rows, objs, p, 0, bound, w);
      if s != [] {
        assert s[|s| - 1] in s;
      }
    }
  }

  lemma {:induction false} RankBound(places: Places, rows: seq<Row>, objs: seq<Item>, pid: int, from: nat, w: set<Item>) returns (b: nat)
    requires |objs| == |rows| && from <= |rows| && Partly(places, rows, objs, 0, w)
    ensures forall o <- InPlace(places, rows, objs, pid, from) :: o in w && o.rank < b
    decreases |rows| - from
  {
    hide Partly, Attached;
    PartlyCount(places, rows, objs, w);
    b := 0;
    if from < |rows| {
      var rest := RankBound(places, rows, objs, pid, from + 1, w);
      b := if rest > objs[from].rank then rest else objs[from].rank + 1;
    }
  }

  // ---------------------------------------------------------------------
  // Save, then load
  // ---------------------------------------------------------------------

  lemma SavedIsLoadable(places: Places, list: seq<Placed>)
    requires Savable(places, list)
    ensures Loadable(places, Flatten(list))
  {
    hide Flatten, Savable;
    IdsAscend(places, list);
  }

  lemma PlacedSavable(places: Places, list: seq<ItemBlock>, w: set<Item>)
    requires Links(w) && (forall b <- list :: b.item in w && IsRoot(places, b.pid)) && places.last <= FIRST_ID
    ensures Savable(places, PlacedItems(list, w))
  {
    hide LinkOk, Snapshot, WellFormed;
    var ps := PlacedItems(list, w);
    forall p | p in ps ensures IsRoot(places, p.pid) && WellFormed(p.tree) {
      var k :| 0 <= k < |ps| && ps[k] == p;
      assert list[k] in list;
      SnapshotWellFormed(list[k].item, w);
    }
  }

  /** Saving the depots of a player and loading them into empty chests gives every chest its items back:
      the same trees in the same order, with every container's cached weight right. */
  method SaveAndLoadDepot(itemList: seq<ItemBlock>, chests: map<int, Item>, ghost w0: set<Item>)
    returns (rows: seq<Row>, ghost w: set<Item>)
    requires Valid(w0) && Links(w0) && forall b <- itemList :: b.item in w0 && IsRoot(DEPOTS, b.pid)
    requires Chests(DEPOTS, chests, [], w0) && forall p | p in chests :: chests[p].itemlist == []
    modifies w0
    ensures w0 <= w && Valid(w) && Links(w)
    ensures forall p | p in chests :: chests[p] in w &&
              Snapshot(chests[p], w).children == Under(old(PlacedItems(itemList, w0)), p)
  {
    hide LinkOk, Links, Valid, PlacedItems, Flatten, Chests, Snapshot, Savable;
    PlacedSavable(DEPOTS, itemList, w0);
    rows := SaveItems(itemList, w0);
    ghost var list := PlacedItems(itemList, w0);
    SavedIsLoadable(DEPOTS, list);
    ForestRoundTrip(DEPOTS, list);
    var objs;
    objs, w := RebuildDepot(rows, chests, w0);
    ValidLinks(w);
  }

  /** When every place is used once, it holds its one tree. */
  lemma {:induction false} OneEach(list: seq<Placed>, pid: int)
    requires forall i, j | 0 <= i < j < |list| :: list[i].pid != list[j].pid
    ensures forall k | 0 <= k < |list| && list[k].pid == pid :: Under(list, pid) == [list[k].tree]
    ensures (forall k | 0 <= k < |list| :: list[k].pid != pid) ==> Under(list, pid) == []
  {
    if list != [] {
      OneEach(list[1..], pid);
      assert forall k | 1 <= k < |list| :: list[k] == list[1..][k - 1];
    }
  }

  /** Saving the slots of a player and loading them gives every slot its item back, with everything in it, in a new
      world in which every container's cached weight is right; slots that were empty stay empty. */
  method SaveAndLoadInventory(itemList: seq<ItemBlock>, ghost w0: set<Item>)
    returns (rows: seq<Row>, inventory: map<int, Item>, ghost w: set<Item>)
    requires Links(w0) && forall b <- itemList :: b.item in w0 && IsRoot(INVENTORY, b.pid)
    requires forall i, j | 0 <= i < j < |itemList| :: itemList[i].pid != itemList[j].pid
    ensures fresh(w) && Valid(w) && Links(w)
    ensures forall b <- itemList ::
              b.pid in inventory && inventory[b.pid] in w && Snapshot(inventory[b.pid], w) == Snapshot(b.item, w0)
    ensures forall p | IsRoot(INVENTORY, p) && (forall b <- itemList :: b.pid != p) :: p !in inventory
  {
    hide LinkOk, Links, Valid, PlacedItems, Flatten, Snapshot, Savable, Under, Forest;
    PlacedSavable(INVENTORY, itemList, w0);
    rows := SaveItems(itemList, w0);
    ghost var list := PlacedItems(itemList, w0);
    SavedIsLoadable(INVENTORY, list);
    ForestRoundTrip(INVENTORY, list);
    var objs;
    inventory, objs, w := RebuildInventory(rows);
    forall p { OneEach(list, p); }
    forall b <- itemList
      ensures b.pid in inventory && inventory[b.pid] in w && Snapshot(inventory[b.pid], w) == Snapshot(b.item, w0)
    {
      var k :| 0 <= k < |itemList| && itemList[k] == b;
      assert list[k].pid == b.pid;
    }
    forall p | IsRoot(INVENTORY, p) && (forall b <- itemList :: b.pid != p) ensures p !in inventory {
      assert forall k | 0 <= k < |list| :: list[k].pid == itemList[k].pid;
    }
  }
}
