/** A monster's window of walkable tiles, shifted in place as it moves. */
module WalkCache {

  datatype Position = Position(x: int, y: int, z: int)

  /** Which tiles the creature may walk on; a place without a tile is not walkable. */
  type Walkable = Position -> bool

  /** What the type of an item says about walking. */
  datatype Kind = Kind(blockSolid: bool, blockPathFind: bool, ground: bool)

  predicate Blocks(k: Kind) { k.blockSolid || k.blockPathFind }

  /** The window as a value, row by row from the north. */
  type Grid = seq<seq<bool>>

  function Abs(i: int): nat { if i < 0 then -i else i }

  predicate Shape(g: Grid, w: nat, h: nat) {
    |g| == 2 * h + 1 && forall r | 0 <= r < |g| :: |g[r]| == 2 * w + 1
  }

  /** The place a cell of the window speaks about, for a creature standing at pos. */
  function PlaceOf(pos: Position, w: nat, h: nat, r: int, c: int): Position {
    Position(pos.x + c - w, pos.y + r - h, pos.z)
  }

  /** Every cell but the one under the creature says what a full recompute would say. */
  ghost predicate Holds(g: Grid, w: nat, h: nat, pos: Position, walk: Walkable) {
    Shape(g, w, h) &&
    forall r, c | 0 <= r <= 2 * h && 0 <= c <= 2 * w && !(r == h && c == w) ::
      g[r][c] == walk(PlaceOf(pos, w, h, r, c))
  }

  /** What the path search is told about a place: 0 blocked, 1 walkable, 2 unknown. */
  function Answer(g: Grid, w: nat, h: nat, pos: Position, p: Position): int
    requires Shape(g, w, h)
  {
    if pos.z != p.z then 0
    else if p == pos then 1
    else if Abs(p.x - pos.x) <= w && Abs(p.y - pos.y) <= h then
      if g[h + p.y - pos.y][w + p.x - pos.x] then 1 else 0
    else 2
  }

  /** The search is told what a full recompute would tell it exactly when every cell but the centre is right. */
  lemma AnswersAreFresh(g: Grid, w: nat, h: nat, pos: Position, walk: Walkable)
    requires Shape(g, w, h)
    ensures Holds(g, w, h, pos, walk) <==>
            forall p: Position :: Answer(g, w, h, pos, p) ==
              if p.z != pos.z then 0
              else if p == pos then 1
              else if Abs(p.x - pos.x) > w || Abs(p.y - pos.y) > h then 2
              else if walk(p) then 1 else 0
  {
    if Holds(g, w, h, pos, walk) {
      forall p: Position | p.z == pos.z && p != pos && Abs(p.x - pos.x) <= w && Abs(p.y - pos.y) <= h
        ensures g[h + p.y - pos.y][w + p.x - pos.x] == walk(p)
      {
        assert PlaceOf(pos, w, h, h + p.y - pos.y, w + p.x - pos.x) == p;
      }
    } else {
      var r, c :| 0 <= r <= 2 * h && 0 <= c <= 2 * w && !(r == h && c == w) &&
                  g[r][c] != walk(PlaceOf(pos, w, h, r, c));
      var p := PlaceOf(pos, w, h, r, c);
      assert h + p.y - pos.y == r && w + p.x - pos.x == c;
      assert Answer(g, w, h, pos, p) != if walk(p) then 1 else 0;
    }
  }

  // ---------------------------------------------------------------------
  // One step, cell by cell
  // ---------------------------------------------------------------------

  /** A cell after the rows have been shifted by a step of sy rows and the row that came in has been refreshed. */
  function RowCell(g: Grid, w: nat, h: nat, pos: Position, walk: Walkable, sy: int, r: int, c: int): bool
    requires Shape(g, w, h) && 0 <= r <= 2 * h && 0 <= c <= 2 * w
  {
    if sy < 0 then
      if r == 0 then walk(PlaceOf(pos, w, h, r, c)) else g[r - 1][c]
    else if sy > 0 then
      if r == 2 * h then walk(PlaceOf(pos, w, h, r, c)) else g[r + 1][c]
    else g[r][c]
  }

  /** A cell after the columns have been shifted too. The rows left out are the first |sy|, whichever way the step went. */
  function ColumnCell(g: Grid, w: nat, h: nat, pos: Position, walk: Walkable, sx: int, sy: int, r: int, c: int): bool
    requires Shape(g, w, h) && 0 <= r <= 2 * h && 0 <= c <= 2 * w
  {
    if sx > 0 then
      if c == 2 * w then walk(PlaceOf(pos, w, h, r, c))
      else RowCell(g, w, h, pos, walk, sy, r, if r >= Abs(sy) then c + 1 else c)
    else if sx < 0 then
      if c == 0 then walk(PlaceOf(pos, w, h, r, c))
      else RowCell(g, w, h, pos, walk, sy, r, if r >= Abs(sy) then c - 1 else c)
    else RowCell(g, w, h, pos, walk, sy, r, c)
  }

  /** A cell after the tile that was left has been refreshed as well. */
  function SteppedCell(g: Grid, w: nat, h: nat, pos: Position, walk: Walkable, sx: int, sy: int, r: int, c: int): bool
    requires Shape(g, w, h) && 0 <= r <= 2 * h && 0 <= c <= 2 * w
  {
    if r == h - sy && c == w - sx then walk(PlaceOf(pos, w, h, r, c))
    else ColumnCell(g, w, h, pos, walk, sx, sy, r, c)
  }

  ghost predicate Stepped(g: Grid, g': Grid, w: nat, h: nat, pos: Position, walk: Walkable, sx: int, sy: int) {
    Shape(g, w, h) && Shape(g', w, h) &&
    forall r, c | 0 <= r <= 2 * h && 0 <= c <= 2 * w :: g'[r][c] == SteppedCell(g, w, h, pos, walk, sx, sy, r, c)
  }

  predicate OneTile(sx: int, sy: int) { -1 <= sx <= 1 && -1 <= sy <= 1 && !(sx == 0 && sy == 0) }

  function Came(pos: Position, sx: int, sy: int): Position { Position(pos.x - sx, pos.y - sy, pos.z) }

  /** The step itself changes nothing but the tile left and the tile entered. */
  ghost predicate OnlyEndsChange(before: Walkable, after: Walkable, old_: Position, pos: Position) {
    forall p: Position :: p != old_ && p != pos ==> before(p) == after(p)
  }

  /** The steps that the shifts were written for: one tile on the same floor, straight or diagonal to the north. */
  predicate Followed(from: Position, pos: Position, w: nat, h: nat) {
    w >= 1 && h >= 1 && from.z == pos.z && OneTile(pos.x - from.x, pos.y - from.y) &&
    !(pos.x != from.x && pos.y > from.y)
  }

  /** Straight steps and diagonal steps to the north keep the window equal to a full recompute. */
  lemma StepHolds(g: Grid, g': Grid, w: nat, h: nat, pos: Position, before: Walkable, after: Walkable, sx: int, sy: int)
    requires w >= 1 && h >= 1 && OneTile(sx, sy) && !(sx != 0 && sy > 0)
    requires Holds(g, w, h, Came(pos, sx, sy), before)
    requires OnlyEndsChange(before, after, Came(pos, sx, sy), pos)
    requires Stepped(g, g', w, h, pos, after, sx, sy)
    ensures Holds(g', w, h, pos, after)
  {
    var from := Came(pos, sx, sy);
    forall r, c | 0 <= r <= 2 * h && 0 <= c <= 2 * w && !(r == h && c == w)
      ensures g'[r][c] == after(PlaceOf(pos, w, h, r, c))
    {
      var p := PlaceOf(pos, w, h, r, c);
      if p != from { Carried(g, w, h, pos, before, after, sx, sy, r, c); }
    }
  }

  /** A cell that stays in the window is found again one step on. */
  lemma Carried(g: Grid, w: nat, h: nat, pos: Position, before: Walkable, after: Walkable, sx: int, sy: int, r: int, c: int)
    requires Holds(g, w, h, Came(pos, sx, sy), before)
    requires OnlyEndsChange(before, after, Came(pos, sx, sy), pos)
    requires 0 <= r <= 2 * h && 0 <= c <= 2 * w && !(r == h && c == w) && !(r == h - sy && c == w - sx)
    ensures 0 <= r + sy <= 2 * h && 0 <= c + sx <= 2 * w ==> g[r + sy][c + sx] == after(PlaceOf(pos, w, h, r, c))
  {
    assert PlaceOf(Came(pos, sx, sy), w, h, r + sy, c + sx) == PlaceOf(pos, w, h, r, c);
  }

  // ---------------------------------------------------------------------
  // Diagonal steps to the south
  // ---------------------------------------------------------------------

  /** A tile is as walkable as the next one to the east. */
  predicate LikeNext(walk: Walkable, x: int, y: int, z: int) {
    walk(Position(x, y, z)) == walk(Position(x + 1, y, z))
  }

  /** Neighbouring tiles of one row are alike from column lo to column hi. */
  ghost predicate Alike(walk: Walkable, y: int, z: int, lo: int, hi: int) {
    forall x | lo <= x < hi :: LikeNext(walk, x, y, z)
  }

  /**
   * What it takes for a diagonal step to the south to come out right: the northern row, which is not shifted, and
   * the southern row, which is shifted although it is fresh, must not tell one column from the next.
   */
  ghost predicate LooksShifted(walk: Walkable, pos: Position, w: nat, h: nat, sx: int) {
    Alike(walk, pos.y - h, pos.z, if sx > 0 then pos.x - w - 1 else pos.x - w + 1,
                                  if sx > 0 then pos.x + w - 1 else pos.x + w + 1) &&
    Alike(walk, pos.y + h, pos.z, pos.x - w, pos.x + w)
  }

  /** The exact condition under which a diagonal step to the south keeps the window right. */
  lemma SouthDiagonalHolds(g: Grid, g': Grid, w: nat, h: nat, pos: Position,
                           before: Walkable, after: Walkable, sx: int)
    requires w >= 1 && h >= 2 && (sx == 1 || sx == -1)
    requires Holds(g, w, h, Came(pos, sx, 1), before)
    requires OnlyEndsChange(before, after, Came(pos, sx, 1), pos)
    requires Stepped(g, g', w, h, pos, after, sx, 1)
    ensures Holds(g', w, h, pos, after) <==> LooksShifted(after, pos, w, h, sx)
  {
    forall c | 0 <= c <= 2 * w && (if sx > 0 then c < 2 * w else c > 0)
      ensures g'[0][c] == after(Position(pos.x - sx + c - w, pos.y - h, pos.z))
      ensures g'[2 * h][c] == after(Position(pos.x + sx + c - w, pos.y + h, pos.z))
    {
      NorthRow(g, w, h, pos, before, after, sx, c);
      assert g'[0][c] == SteppedCell(g, w, h, pos, after, sx, 1, 0, c);
      assert g'[2 * h][c] == SteppedCell(g, w, h, pos, after, sx, 1, 2 * h, c);
    }
    RightIfAlike(g, g', w, h, pos, before, after, sx);
    AlikeIfRight(g', w, h, pos, after, sx);
  }

  lemma NorthRow(g: Grid, w: nat, h: nat, pos: Position, before: Walkable, after: Walkable, sx: int, c: int)
    requires w >= 1 && h >= 2 && (sx == 1 || sx == -1)
    requires Holds(g, w, h, Came(pos, sx, 1), before)
    requires OnlyEndsChange(before, after, Came(pos, sx, 1), pos)
    requires 0 <= c <= 2 * w
    ensures g[1][c] == after(Position(pos.x - sx + c - w, pos.y - h, pos.z))
  {
    assert PlaceOf(Came(pos, sx, 1), w, h, 1, c) == Position(pos.x - sx + c - w, pos.y - h, pos.z);
  }

  lemma RightIfAlike(g: Grid, g': Grid, w: nat, h: nat, pos: Position, before: Walkable, after: Walkable, sx: int)
    requires w >= 1 && h >= 2 && (sx == 1 || sx == -1)
    requires Holds(g, w, h, Came(pos, sx, 1), before)
    requires OnlyEndsChange(before, after, Came(pos, sx, 1), pos)
    requires Stepped(g, g', w, h, pos, after, sx, 1)
    requires forall c | 0 <= c <= 2 * w && (if sx > 0 then c < 2 * w else c > 0) ::
      g'[0][c] == after(Position(pos.x - sx + c - w, pos.y - h, pos.z)) &&
      g'[2 * h][c] == after(Position(pos.x + sx + c - w, pos.y + h, pos.z))
    ensures LooksShifted(after, pos, w, h, sx) ==> Holds(g', w, h, pos, after)
  {
    if LooksShifted(after, pos, w, h, sx) {
      forall r, c | 0 <= r <= 2 * h && 0 <= c <= 2 * w && !(r == h && c == w)
        ensures g'[r][c] == after(PlaceOf(pos, w, h, r, c))
      {
        assert g'[r][c] == SteppedCell(g, w, h, pos, after, sx, 1, r, c);
        if (if sx > 0 then c < 2 * w else c > 0) && PlaceOf(pos, w, h, r, c) != Came(pos, sx, 1) {
          var x := pos.x + c - w;
          if r == 0 {
            var lo := if sx > 0 then x - 1 else x;
            assert LikeNext(after, lo, pos.y - h, pos.z);
          } else if r == 2 * h {
            var lo := if sx > 0 then x else x - 1;
            assert LikeNext(after, lo, pos.y + h, pos.z);
          } else {
            Carried(g, w, h, pos, before, after, sx, 1, r, c);
          }
        }
      }
    }
  }

  lemma AlikeIfRight(g': Grid, w: nat, h: nat, pos: Position, after: Walkable, sx: int)
    requires w >= 1 && h >= 2 && (sx == 1 || sx == -1) && Shape(g', w, h)
    requires forall c | 0 <= c <= 2 * w && (if sx > 0 then c < 2 * w else c > 0) ::
      g'[0][c] == after(Position(pos.x - sx + c - w, pos.y - h, pos.z)) &&
      g'[2 * h][c] == after(Position(pos.x + sx + c - w, pos.y + h, pos.z))
    ensures Holds(g', w, h, pos, after) ==> LooksShifted(after, pos, w, h, sx)
  {
    if Holds(g', w, h, pos, after) {
      var lo := if sx > 0 then pos.x - w - 1 else pos.x - w + 1;
      var north, south := pos.y - h, pos.y + h;
      forall x | lo <= x < lo + 2 * w
        ensures LikeNext(after, x, north, pos.z)
      {
        var c := (if sx > 0 then x + 1 else x) - pos.x + w;
        assert g'[0][c] == after(PlaceOf(pos, w, h, 0, c));
      }
      forall x | pos.x - w <= x < pos.x + w
        ensures LikeNext(after, x, south, pos.z)
      {
        var c := (if sx > 0 then x else x + 1) - pos.x + w;
        assert g'[2 * h][c] == after(PlaceOf(pos, w, h, 2 * h, c));
      }
    }
  }

  /** One open tile at the edge is enough: after a step to the south-east the window shows it in the wrong column. */
  lemma OneOpenTile(g: Grid, g': Grid)
    requires Holds(g, 11, 11, Position(99, 99, 7), p => p == Position(100, 89, 7))
    requires Stepped(g, g', 11, 11, Position(100, 100, 7), p => p == Position(100, 89, 7), 1, 1)
    ensures !Holds(g', 11, 11, Position(100, 100, 7), p => p == Position(100, 89, 7))
  {
    var open: Walkable := p => p == Position(100, 89, 7);
    var pos := Position(100, 100, 7);
    SouthDiagonalHolds(g, g', 11, 11, pos, open, open, 1);
    assert !LikeNext(open, 99, 89, 7);
  }

  // ---------------------------------------------------------------------
  // The creature
  // ---------------------------------------------------------------------

  class Creature {
    const w: nat
    const h: nat
    const cache: array2<bool>
    var pos: Position
    /** Whether the window is kept up to date. */
    var loaded: bool

    ghost predicate Valid() {
      cache.Length0 == 2 * h + 1 && cache.Length1 == 2 * w + 1
    }

    ghost function Cells(): (g: Grid)
      requires Valid()
      reads cache
      ensures Shape(g, w, h)
      ensures forall r, c | 0 <= r <= 2 * h && 0 <= c <= 2 * w :: g[r][c] == cache[r, c]
    {
      seq(2 * h + 1, r requires 0 <= r <= 2 * h && Valid() reads cache =>
        seq(2 * w + 1, c requires 0 <= c <= 2 * w && Valid() reads cache => cache[r, c]))
    }

    ghost predicate Fresh(walk: Walkable)
      requires Valid()
      reads this, cache
    {
      Holds(Cells(), w, h, pos, walk)
    }

    constructor (w: nat, h: nat, pos: Position)
      ensures Valid() && fresh(cache) && this.w == w && this.h == h && this.pos == pos && !loaded
    {
      this.w, this.h, this.pos, this.loaded := w, h, pos, false;
      this.cache := new bool[2 * h + 1, 2 * w + 1];
    }

    /** Sets the cell of an offset; an offset outside the window is ignored. */
    method UpdateOffset(open: bool, dx: int, dy: int)
      requires Valid()
      modifies cache
      ensures forall r, c | 0 <= r <= 2 * h && 0 <= c <= 2 * w ::
        cache[r, c] == if r == h + dy && c == w + dx then open else old(cache[r, c])
    {
      if Abs(dx) <= w && Abs(dy) <= h {
        cache[h + dy, w + dx] := open;
      }
    }

    /** Sets the cell of a place, if it is on the creature's floor. */
    method UpdateTileCache(p: Position, open: bool)
      requires Valid()
      modifies cache
      ensures forall r, c | 0 <= r <= 2 * h && 0 <= c <= 2 * w ::
        cache[r, c] == if p == PlaceOf(pos, w, h, r, c) then open else old(cache[r, c])
    {
      if p.z == pos.z {
        UpdateOffset(open, p.x - pos.x, p.y - pos.y);
      }
    }

    method RefreshRow(dy: int, walk: Walkable)
      requires Valid() && Abs(dy) <= h
      modifies cache
      ensures forall r, c | 0 <= r <= 2 * h && 0 <= c <= 2 * w ::
        cache[r, c] == if r == h + dy then walk(PlaceOf(pos, w, h, r, c)) else old(cache[r, c])
    {
      var x := 0 - w;
      while x <= w
        invariant 0 - w <= x <= w + 1
        invariant forall r, c | 0 <= r <= 2 * h && 0 <= c <= 2 * w ::
          cache[r, c] == if r == h + dy && c < w + x then walk(PlaceOf(pos, w, h, r, c)) else old(cache[r, c])
      {
        UpdateOffset(walk(Position(pos.x + x, pos.y + dy, pos.z)), x, dy);
        x := x + 1;
      }
    }

    method RefreshColumn(dx: int, walk: Walkable)
      requires Valid() && Abs(dx) <= w
      modifies cache
      ensures forall r, c | 0 <= r <= 2 * h && 0 <= c <= 2 * w ::
        cache[r, c] == if c == w + dx then walk(PlaceOf(pos, w, h, r, c)) else old(cache[r, c])
    {
      var y := 0 - h;
      while y <= h
        invariant 0 - h <= y <= h + 1
        invariant forall r, c | 0 <= r <= 2 * h && 0 <= c <= 2 * w ::
          cache[r, c] == if c == w + dx && r < h + y then walk(PlaceOf(pos, w, h, r, c)) else old(cache[r, c])
      {
        UpdateOffset(walk(Position(pos.x + dx, pos.y + y, pos.z)), dx, y);
        y := y + 1;
      }
    }

    /** Recomputes the whole window. */
    method UpdateMapCache(walk: Walkable)
      requires Valid()
      modifies cache
      ensures forall r, c | 0 <= r <= 2 * h && 0 <= c <= 2 * w :: cache[r, c] == walk(PlaceOf(pos, w, h, r, c))
      ensures Fresh(walk)
    {
      var y := 0 - h;
      while y <= h
        invariant 0 - h <= y <= h + 1
        invariant forall r, c | 0 <= r < h + y && 0 <= c <= 2 * w :: cache[r, c] == walk(PlaceOf(pos, w, h, r, c))
      {
        RefreshRow(y, walk);
        y := y + 1;
      }
    }

    method ShiftSouth()
      requires Valid()
      modifies cache
      ensures forall r, c | 0 <= r <= 2 * h && 0 <= c <= 2 * w :: cache[r, c] == old(cache[if r == 0 then 0 else r - 1, c])
    {
      var y := 2 * h;
      while y > 0
        invariant 0 <= y <= 2 * h
        invariant forall r, c | 0 <= r <= 2 * h && 0 <= c <= 2 * w :: cache[r, c] == old(cache[if r <= y then r else r - 1, c])
      {
        y := y - 1;
        forall c | 0 <= c <= 2 * w { cache[y + 1, c] := cache[y, c]; }
      }
    }

    method ShiftNorth()
      requires Valid()
      modifies cache
      ensures forall r, c | 0 <= r <= 2 * h && 0 <= c <= 2 * w ::
        cache[r, c] == old(cache[if r == 2 * h then r else r + 1, c])
    {
      var y := 0;
      while y <= 2 * h - 1
        invariant 0 <= y <= 2 * h
        invariant forall r, c | 0 <= r <= 2 * h && 0 <= c <= 2 * w :: cache[r, c] == old(cache[if r < y then r + 1 else r, c])
      {
        forall c | 0 <= c <= 2 * w { cache[y, c] := cache[y + 1, c]; }
        y := y + 1;
      }
    }

    /** Moves the cells of the rows from `start` on one column to the west. */
    method ShiftWest(start: nat)
      requires Valid()
      modifies cache
      ensures forall r, c | 0 <= r <= 2 * h && 0 <= c <= 2 * w ::
        cache[r, c] == old(cache[r, if r >= start && c < 2 * w then c + 1 else c])
    {
      var y := start;
      while y <= 2 * h
        invariant start <= y
        invariant forall r, c | 0 <= r <= 2 * h && 0 <= c <= 2 * w ::
          cache[r, c] == old(cache[r, if start <= r < y && c < 2 * w then c + 1 else c])
      {
        var x := 0;
        while x <= 2 * w - 1
          invariant 0 <= x <= 2 * w
          invariant forall r, c | 0 <= r <= 2 * h && 0 <= c <= 2 * w ::
            cache[r, c] == old(cache[r, if (start <= r < y && c < 2 * w) || (r == y && c < x) then c + 1 else c])
        {
          cache[y, x] := cache[y, x + 1];
          x := x + 1;
        }
        y := y + 1;
      }
    }

    /** Moves the cells of the rows from `start` on one column to the east. */
    method ShiftEast(start: nat)
      requires Valid()
      modifies cache
      ensures forall r, c | 0 <= r <= 2 * h && 0 <= c <= 2 * w ::
        cache[r, c] == old(cache[r, if r >= start && c > 0 then c - 1 else c])
    {
      var y := start;
      while y <= 2 * h
        invariant start <= y
        invariant forall r, c | 0 <= r <= 2 * h && 0 <= c <= 2 * w ::
          cache[r, c] == old(cache[r, if start <= r < y && c > 0 then c - 1 else c])
      {
        var x := 2 * w;
        while x > 0
          invariant 0 <= x <= 2 * w
          invariant forall r, c | 0 <= r <= 2 * h && 0 <= c <= 2 * w ::
            cache[r, c] == old(cache[r, if (start <= r < y && c > 0) || (r == y && c > x) then c - 1 else c])
        {
          x := x - 1;
          cache[y, x + 1] := cache[y, x];
        }
        y := y + 1;
      }
    }

    /** The rows of a step, and the row that comes into the window. */
    method StepRows(from: Position, walk: Walkable)
      requires Valid()
      modifies cache
      ensures forall r, c | 0 <= r <= 2 * h && 0 <= c <= 2 * w ::
        cache[r, c] == RowCell(old(Cells()), w, h, pos, walk, pos.y - from.y, r, c)
    {
      if from.y > pos.y {
        ShiftSouth();
        RefreshRow(0 - h, walk);
      } else if from.y < pos.y {
        ShiftNorth();
        RefreshRow(h, walk);
      }
    }

    /** The columns of a step; the distance that says which rows to leave alone carries no sign. */
    method StepColumns(from: Position, walk: Walkable)
      requires Valid()
      modifies cache
      ensures var start := Abs(pos.y - from.y);
        forall r, c | 0 <= r <= 2 * h && 0 <= c <= 2 * w ::
          cache[r, c] ==
            if from.x < pos.x then
              if c == 2 * w then walk(PlaceOf(pos, w, h, r, c)) else old(cache[r, if r >= start && c < 2 * w then c + 1 else c])
            else if from.x > pos.x then
              if c == 0 then walk(PlaceOf(pos, w, h, r, c)) else old(cache[r, if r >= start && c > 0 then c - 1 else c])
            else old(cache[r, c])
    {
      if from.x < pos.x {
        ShiftWest(Abs(from.y - pos.y));
        RefreshColumn(w, walk);
      } else if from.x > pos.x {
        ShiftEast(Abs(from.y - pos.y));
        RefreshColumn(0 - w, walk);
      }
    }

    /** The window after a step on the same floor, cell by cell. */
    method Step(from: Position, walk: Walkable)
      requires Valid() && from.z == pos.z
      modifies cache
      ensures Stepped(old(Cells()), Cells(), w, h, pos, walk, pos.x - from.x, pos.y - from.y)
    {
      ghost var g, sx, sy := Cells(), pos.x - from.x, pos.y - from.y;
      StepRows(from, walk);
      StepColumns(from, walk);
      assert forall r, c | 0 <= r <= 2 * h && 0 <= c <= 2 * w ::
        cache[r, c] == ColumnCell(g, w, h, pos, walk, sx, sy, r, c);
      hide ColumnCell, RowCell;
      UpdateTileCache(from, walk(from));
      forall r, c | 0 <= r <= 2 * h && 0 <= c <= 2 * w
        ensures Cells()[r][c] == SteppedCell(g, w, h, pos, walk, sx, sy, r, c)
      {
        assert from == PlaceOf(pos, w, h, r, c) <==> r == h - sy && c == w - sx;
      }
      hide SteppedCell, PlaceOf;
    }

    /** The creature has moved from `from` to where it now stands. */
    method OnOwnMove(from: Position, teleport: bool, walk: Walkable, ghost before: Walkable)
      requires Valid()
      modifies cache
      ensures !loaded ==> Cells() == old(Cells())
      ensures loaded && !teleport && from.z == pos.z ==>
        Stepped(old(Cells()), Cells(), w, h, pos, walk, pos.x - from.x, pos.y - from.y)
      ensures loaded && (teleport || from.z != pos.z) ==> Fresh(walk)
      ensures (loaded && !teleport && Followed(from, pos, w, h) && Holds(old(Cells()), w, h, from, before) &&
               OnlyEndsChange(before, walk, from, pos)) ==> Fresh(walk)
    {
      hide Stepped, Holds, OnlyEndsChange, Shape;
      if loaded {
        if teleport || from.z != pos.z {
          UpdateMapCache(walk);
        } else {
          ghost var g := Cells();
          ghost var sx, sy := pos.x - from.x, pos.y - from.y;
          assert Came(pos, sx, sy) == from;
          Step(from, walk);
          if Followed(from, pos, w, h) && Holds(g, w, h, from, before) && OnlyEndsChange(before, walk, from, pos) {
            StepHolds(g, Cells(), w, h, pos, before, walk, sx, sy);
          }
        }
      }
    }

    /** The cells that have to be right: those of places in the window other than the creature's own. */
    predicate Sees(p: Position)
      reads this
    {
      p.z == pos.z && Abs(p.x - pos.x) <= w && Abs(p.y - pos.y) <= h && p != pos
    }

    /** One tile has changed. A window that was right is right afterwards exactly if it was refreshed or need not be. */
    method OnTileChange(p: Position, refresh: bool, walk: Walkable, ghost before: Walkable)
      requires Valid()
      modifies cache
      ensures loaded && old(Fresh(before)) && (forall q: Position :: q != p ==> before(q) == walk(q)) ==>
                (Fresh(walk) <==> refresh || before(p) == walk(p) || !Sees(p))
    {
      ghost var g := Cells();
      if loaded && refresh && p.z == pos.z {
        UpdateTileCache(p, walk(p));
      }
      if loaded && !refresh && Sees(p) && before(p) != walk(p) {
        assert PlaceOf(pos, w, h, h + p.y - pos.y, w + p.x - pos.x) == p;
      }
    }

    /** An item has come onto a tile. */
    method OnAddTileItem(p: Position, walk: Walkable, ghost before: Walkable)
      requires Valid()
      modifies cache
      ensures loaded && old(Fresh(before)) && (forall q: Position :: q != p ==> before(q) == walk(q)) ==> Fresh(walk)
    {
      OnTileChange(p, true, walk, before);
    }

    /** An item has turned into another one. The window is left alone unless one of the two types blocks. */
    method OnUpdateTileItem(p: Position, was: Kind, now: Kind, walk: Walkable, ghost before: Walkable)
      requires Valid()
      modifies cache
      ensures loaded && old(Fresh(before)) && (forall q: Position :: q != p ==> before(q) == walk(q)) ==>
                (Fresh(walk) <==> Blocks(was) || Blocks(now) || before(p) == walk(p) || !Sees(p))
    {
      OnTileChange(p, was.blockSolid || was.blockPathFind || now.blockPathFind || now.blockSolid, walk, before);
    }

    /** An item has been taken off a tile. The window is left alone unless the item blocked or was the ground. */
    method OnRemoveTileItem(p: Position, kind: Kind, walk: Walkable, ghost before: Walkable)
      requires Valid()
      modifies cache
      ensures loaded && old(Fresh(before)) && (forall q: Position :: q != p ==> before(q) == walk(q)) ==>
                (Fresh(walk) <==> Blocks(kind) || kind.ground || before(p) == walk(p) || !Sees(p))
    {
      OnTileChange(p, kind.blockSolid || kind.blockPathFind || kind.ground, walk, before);
    }

    /** Another creature has moved. */
    method OnOtherMove(from: Position, to: Position, walk: Walkable, ghost before: Walkable)
      requires Valid()
      modifies cache
      ensures loaded && old(Fresh(before)) && OnlyEndsChange(before, walk, from, to) ==> Fresh(walk)
    {
      if loaded {
        if to.z == pos.z { UpdateTileCache(to, walk(to)); }
        if from.z == pos.z { UpdateTileCache(from, walk(from)); }
      }
    }

    /** The creature has come onto the map. */
    method OnAppear(useCacheMap: bool, walk: Walkable)
      requires Valid()
      modifies this`loaded, cache
      ensures loaded == (useCacheMap || old(loaded))
      ensures useCacheMap ==> Fresh(walk)
      ensures !useCacheMap ==> Cells() == old(Cells())
    {
      if useCacheMap {
        loaded := true;
        UpdateMapCache(walk);
      }
    }

    method GetWalkCache(p: Position, useCacheMap: bool) returns (answer: int)
      requires Valid()
      ensures answer == if useCacheMap then Answer(Cells(), w, h, pos, p) else 2
    {
      if !useCacheMap { return 2; }
      if pos.z != p.z { return 0; }
      if p == pos { return 1; }
      var dx := p.x - pos.x;
      if Abs(dx) <= w {
        var dy := p.y - pos.y;
        if Abs(dy) <= h {
          if cache[h + dy, w + dx] { return 1; }
          return 0;
        }
      }
      return 2;
    }
  }
}
