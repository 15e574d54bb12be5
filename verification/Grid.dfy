/** The map as the clients see it: floor, clear lines, and the cells from which a line is clear. */
module Grid {
  datatype Dir = N | E | S | W

  const DIRS: seq<Dir> := [N, E, S, W]

  datatype Cell = Cell(x: int, y: int)

  datatype GameMap = GameMap(width: nat, height: nat, rows: seq<string>) {
    /** There are as many rows as announced, and each is at least as wide. */
    predicate Valid() {
      |rows| >= height && forall y :: 0 <= y < height ==> |rows[y]| >= width
    }

    predicate IsFloor(x: int, y: int)
      requires Valid()
    {
      0 <= x < width && 0 <= y < height && rows[y][x] == '.'
    }
  }

  function Dx(d: Dir): int { if d.E? then 1 else if d.W? then -1 else 0 }

  function Dy(d: Dir): int { if d.S? then 1 else if d.N? then -1 else 0 }

  /** The cell `k` steps from `c`. */
  function Ahead(c: Cell, d: Dir, k: int): Cell {
    match d
    case N => Cell(c.x, c.y - k)
    case E => Cell(c.x + k, c.y)
    case S => Cell(c.x, c.y + k)
    case W => Cell(c.x - k, c.y)
  }

  /** Same row or column, and floor everywhere strictly between. */
  ghost predicate Clear(m: GameMap, a: Cell, b: Cell)
    requires m.Valid()
  {
    || (a.x == b.x && forall y :: a.y < y < b.y || b.y < y < a.y ==> m.IsFloor(a.x, y))
    || (a.y == b.y && forall x :: a.x < x < b.x || b.x < x < a.x ==> m.IsFloor(x, a.y))
  }

  function Sign(a: int, b: int): int { if b > a then 1 else if b < a then -1 else 0 }

  function Distance(a: int, b: int): nat { if a < b then b - a else a - b }

  /** `clear_line`. */
  method ClearLine(m: GameMap, x0: int, y0: int, x1: int, y1: int) returns (clear: bool)
    requires m.Valid()
    ensures clear == Clear(m, Cell(x0, y0), Cell(x1, y1))
  {
    if x0 != x1 && y0 != y1 { return false; }
    var dx, dy := Sign(x0, x1), Sign(y0, y1);
    var x, y := x0 + dx, y0 + dy;
    while (x, y) != (x1, y1)
      invariant x0 == x1 && y0 == y1 ==> x == x1 && y == y1
      invariant x0 == x1 && y0 != y1 ==> x == x0 && (y0 < y <= y1 || y1 <= y < y0)
      invariant x0 == x1 ==> forall k :: y0 < k < y || y < k < y0 ==> m.IsFloor(x0, k)
      invariant x0 != x1 ==> y == y0 && (x0 < x <= x1 || x1 <= x < x0)
      invariant x0 != x1 ==> forall k :: x0 < k < x || x < k < x0 ==> m.IsFloor(k, y0)
      decreases Distance(x, x1) + Distance(y, y1)
    {
      if !m.IsFloor(x, y) { return false; }
      x, y := x + dx, y + dy;
    }
    clear := true;
  }

  /** `c` is met going from `o` in direction `d` over floor. */
  predicate Met(m: GameMap, o: Cell, d: Dir, c: Cell, n: nat)
    requires m.Valid()
  {
    exists k :: 1 <= k < n && c == Ahead(o, d, k)
  }

  /** The cells met in direction `d` before the first wall, which is `n` steps away. */
  ghost predicate WallAt(m: GameMap, o: Cell, d: Dir, n: nat)
    requires m.Valid()
  {
    && n >= 1
    && (forall k :: 1 <= k < n ==> var c := Ahead(o, d, k); m.IsFloor(c.x, c.y))
    && var w := Ahead(o, d, n); !m.IsFloor(w.x, w.y)
  }

  /** Steps left in direction `d` before the edge of the map. */
  function Room(m: GameMap, d: Dir, x: int, y: int): int {
    match d
    case N => y
    case E => m.width - x
    case S => m.height - y
    case W => x
  }

  /** One direction of `line_of_fire_cells`. */
  method Scan(m: GameMap, o: Cell, d: Dir, before: set<Cell>) returns (cells: set<Cell>, ghost n: nat)
    requires m.Valid()
    ensures WallAt(m, o, d, n)
    ensures forall c :: c in cells <==> c in before || Met(m, o, d, c, n)
  {
    cells := before;
    n := 1;
    var x, y := o.x + Dx(d), o.y + Dy(d);
    while m.IsFloor(x, y)
      invariant n >= 1 && Cell(x, y) == Ahead(o, d, n)
      invariant forall k :: 1 <= k < n ==> var c := Ahead(o, d, k); m.IsFloor(c.x, c.y)
      invariant forall c :: c in cells <==> c in before || Met(m, o, d, c, n)
      decreases Room(m, d, x, y)
    {
      OneFurther(m, o, d, n);
      cells := cells + {Cell(x, y)};
      x, y := x + Dx(d), y + Dy(d);
      n := n + 1;
    }
  }

  lemma OneFurther(m: GameMap, o: Cell, d: Dir, n: nat)
    requires m.Valid() && n >= 1
    ensures forall c :: Met(m, o, d, c, n + 1) <==> Met(m, o, d, c, n) || c == Ahead(o, d, n)
  {
    var c := Ahead(o, d, n);
    assert 1 <= n < n + 1 && c == Ahead(o, d, n);
    assert Met(m, o, d, c, n + 1);
  }

  /** `line_of_fire_cells`: exactly the floor cells, other than the target's own, whose line to it is clear. */
  method LineOfFireCells(m: GameMap, x: int, y: int) returns (cells: set<Cell>)
    requires m.Valid()
    ensures forall c :: c in cells <==> m.IsFloor(c.x, c.y) && c != Cell(x, y) && Clear(m, c, Cell(x, y))
  {
    hide Met, WallAt;
    var o := Cell(x, y);
    cells := {};
    ghost var nN, nE, nS, nW;
    cells, nN := Scan(m, o, N, cells);
    cells, nE := Scan(m, o, E, cells);
    cells, nS := Scan(m, o, S, cells);
    cells, nW := Scan(m, o, W, cells);
    forall c ensures c in cells <==> m.IsFloor(c.x, c.y) && c != o && Clear(m, c, o) {
      MetIffClear(m, o, c, nN, nE, nS, nW);
    }
  }

  /** Being met in some direction is having a clear line, though the line test looks from the other end and
      never at its endpoints. */
  lemma MetIffClear(m: GameMap, o: Cell, c: Cell, nN: nat, nE: nat, nS: nat, nW: nat)
    requires m.Valid() && WallAt(m, o, N, nN) && WallAt(m, o, E, nE) && WallAt(m, o, S, nS) && WallAt(m, o, W, nW)
    ensures Met(m, o, N, c, nN) || Met(m, o, E, c, nE) || Met(m, o, S, c, nS) || Met(m, o, W, c, nW)
            <==> m.IsFloor(c.x, c.y) && c != o && Clear(m, c, o)
  {
    MetInDirection(m, o, N, c, nN);
    MetInDirection(m, o, E, c, nE);
    MetInDirection(m, o, S, c, nS);
    MetInDirection(m, o, W, c, nW);
  }

  /** `c` lies in direction `d` from `o`. */
  predicate Towards(o: Cell, d: Dir, c: Cell) {
    match d
    case N => c.x == o.x && c.y < o.y
    case E => c.y == o.y && c.x > o.x
    case S => c.x == o.x && c.y > o.y
    case W => c.y == o.y && c.x < o.x
  }

  lemma MetInDirection(m: GameMap, o: Cell, d: Dir, c: Cell, n: nat)
    requires m.Valid() && WallAt(m, o, d, n)
    ensures Met(m, o, d, c, n) <==> Towards(o, d, c) && m.IsFloor(c.x, c.y) && Clear(m, c, o)
  {
    if Towards(o, d, c) {
      var k := Distance(c.x, o.x) + Distance(c.y, o.y);
      assert c == Ahead(o, d, k);
      if k < n {
        assert Met(m, o, d, c, n);
        forall j | 1 <= j < k ensures var b := Ahead(o, d, j); m.IsFloor(b.x, b.y) { }
        ClearIfFloor(m, o, d, c, k);
      } else if k > n {
        var w := Ahead(o, d, n);
        assert !Clear(m, c, o) by { assert !m.IsFloor(w.x, w.y); }
      }
    }
  }

  lemma ClearIfFloor(m: GameMap, o: Cell, d: Dir, c: Cell, k: nat)
    requires m.Valid() && k >= 1 && c == Ahead(o, d, k)
    requires forall j :: 1 <= j < k ==> var b := Ahead(o, d, j); m.IsFloor(b.x, b.y)
    ensures Clear(m, c, o)
  {
    if d.N? || d.S? {
      forall y | c.y < y < o.y || o.y < y < c.y ensures m.IsFloor(c.x, y) {
        assert Ahead(o, d, Distance(y, o.y)) == Cell(c.x, y);
      }
    } else {
      forall x | c.x < x < o.x || o.x < x < c.x ensures m.IsFloor(x, c.y) {
        assert Ahead(o, d, Distance(x, o.x)) == Cell(x, c.y);
      }
    }
  }
}
