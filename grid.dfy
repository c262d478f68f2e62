/** The playing field: a square of Extent x Extent cells, the positions on it,
    the unit moves between them, and the facts about worm bodies (sequences of
    cells) that the game loop relies on. */
module Grid {

  /** Side of one cell in canvas pixels (GRID_SIZE in the game). */
  const CellSizePx := 20
  /** Side of the square canvas in pixels (CANVAS_SIZE in the game). */
  const CanvasSizePx := 400
  /** Number of cells per side: the bound the wall check compares against. */
  const Extent := CanvasSizePx / CellSizePx
  /** Number of cells on the whole field. */
  const CellCount := Extent * Extent

  /** A position on the field, in cells; it may lie outside the field. */
  datatype Cell = Cell(x: int, y: int)

  /** A movement vector, added to the head once per tick. */
  datatype Direction = Direction(x: int, y: int)

  const Up := Direction(0, -1)
  const Down := Direction(0, 1)
  const Left := Direction(-1, 0)
  const Right := Direction(1, 0)

  predicate InBounds(c: Cell) {
    0 <= c.x < Extent && 0 <= c.y < Extent
  }

  /** The cell one step from `c` along `d`. */
  function Advance(c: Cell, d: Direction): Cell {
    Cell(c.x + d.x, c.y + d.y)
  }

  /** One of the four moves the game ever commits. */
  predicate IsUnit(d: Direction) {
    d == Up || d == Down || d == Left || d == Right
  }

  /** The two vectors share no axis: on each axis at least one of them is 0. */
  predicate Perpendicular(a: Direction, b: Direction) {
    (a.x == 0 || b.x == 0) && (a.y == 0 || b.y == 0)
  }

  function Reverse(d: Direction): Direction {
    Direction(-d.x, -d.y)
  }

  predicate AllInBounds(w: seq<Cell>) {
    forall i :: 0 <= i < |w| ==> InBounds(w[i])
  }

  /** No cell occurs twice. */
  predicate Distinct(w: seq<Cell>) {
    forall i, j :: 0 <= i < j < |w| ==> w[i] != w[j]
  }

  /** A body the game can be in: in bounds and never overlapping itself. */
  predicate WellPlaced(w: seq<Cell>) {
    AllInBounds(w) && Distinct(w)
  }

  /** Adding a free in-bounds cell at the head keeps a body well placed. */
  lemma GrowKeepsWellPlaced(w: seq<Cell>, head: Cell)
    requires WellPlaced(w) && InBounds(head) && head !in w
    ensures WellPlaced([head] + w)
  {
    var grown := [head] + w;
    forall i, j | 0 <= i < j < |grown| ensures grown[i] != grown[j] {
      if i == 0 {
        assert grown[j] == w[j - 1];
      }
    }
  }

  /** Dropping the tail keeps a body well placed and covers no new cell. */
  lemma DropTailKeepsWellPlaced(w: seq<Cell>)
    requires WellPlaced(w) && |w| >= 1
    ensures WellPlaced(w[..|w| - 1])
    ensures forall c :: c in w[..|w| - 1] ==> c in w
  {
  }

  function Occupied(w: seq<Cell>): set<Cell> {
    set c | c in w
  }

  /** The cells (x, 0) .. (x, rows - 1). */
  function Column(x: int, rows: nat): set<Cell> {
    if rows == 0 then {} else Column(x, rows - 1) + {Cell(x, rows - 1)}
  }

  /** The cells of the first `cols` columns of the field. */
  function Columns(cols: nat): set<Cell> {
    if cols == 0 then {} else Columns(cols - 1) + Column(cols - 1, Extent)
  }

  lemma {:induction false} ColumnMember(x: int, rows: nat, c: Cell)
    ensures c in Column(x, rows) <==> c.x == x && 0 <= c.y < rows
  {
    if rows > 0 {
      ColumnMember(x, rows - 1, c);
    }
  }

  lemma {:induction false} ColumnSize(x: int, rows: nat)
    ensures |Column(x, rows)| == rows
  {
    if rows > 0 {
      ColumnSize(x, rows - 1);
      ColumnMember(x, rows - 1, Cell(x, rows - 1));
    }
  }

  lemma {:induction false} ColumnsMember(cols: nat, c: Cell)
    ensures c in Columns(cols) <==> 0 <= c.x < cols && 0 <= c.y < Extent
  {
    if cols > 0 {
      ColumnsMember(cols - 1, c);
      ColumnMember(cols - 1, Extent, c);
    }
  }

  lemma {:induction false} ColumnsSize(cols: nat)
    ensures |Columns(cols)| == cols * Extent
  {
    if cols > 0 {
      var before, added := Columns(cols - 1), Column(cols - 1, Extent);
      assert |before| == (cols - 1) * Extent by {
        ColumnsSize(cols - 1);
      }
      assert |added| == Extent by {
        ColumnSize(cols - 1, Extent);
      }
      assert before !! added by {
        forall c | c in added ensures c !in before {
          ColumnMember(cols - 1, Extent, c);
          ColumnsMember(cols - 1, c);
        }
      }
      assert |before + added| == |before| + |added|;
    }
  }

  /** A set larger than another has an element the other lacks. */
  lemma LargerSetHasExtra(a: set<Cell>, b: set<Cell>)
    requires |a| > |b|
    ensures a - b != {}
  {
    assert b == (a * b) + (b - a);
    assert |a - b| == |a| - |a * b|;
  }

  /** A body without repeated cells occupies as many cells as it has segments. */
  lemma {:induction false} DistinctOccupies(w: seq<Cell>)
    requires Distinct(w)
    ensures |Occupied(w)| == |w|
  {
    if w != [] {
      DistinctOccupies(w[1..]);
      assert Occupied(w) == {w[0]} + Occupied(w[1..]);
      assert w[0] !in Occupied(w[1..]);
    }
  }

  /** Pigeonhole: a well-placed body shorter than the field leaves a free cell,
      so a search for an unoccupied in-bounds cell can succeed. */
  lemma FreeCellExists(w: seq<Cell>)
    requires WellPlaced(w)
    requires |w| < CellCount
    ensures exists c :: InBounds(c) && c !in w
  {
    var field, occupied := Columns(Extent), Occupied(w);
    ColumnsSize(Extent);
    DistinctOccupies(w);
    LargerSetHasExtra(field, occupied);
    var c :| c in field - occupied;
    ColumnsMember(Extent, c);
    assert InBounds(c) && c !in w;
  }
}
