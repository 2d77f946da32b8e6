/** The alien formation: the 4 x 8 starting grid and the per-tick sweep with
    its wall bounce and step down. Lengths are in tenths of a pixel. */
module Formation {
  import opened Geometry

  const Rows: int := 4
  const Cols: int := 8
  const Padding: int := 100
  const StartX: int := 400
  const StartY: int := 600
  const AlienW: int := 300
  const AlienH: int := 200

  /** Sideways distance per tick (1.2 pixels) and the step down on a bounce (20 pixels). */
  const Speed: int := 12
  const Drop: int := 200

  /** The alien in row `row` and column `col` of a fresh grid. */
  function Cell(row: int, col: int): Rect {
    Rect(StartX + col * (AlienW + Padding), StartY + row * (AlienH + Padding), AlienW, AlienH)
  }

  /** The fresh grid, row by row. */
  function Grid(): seq<Rect> {
    seq(Rows * Cols, i requires 0 <= i => Cell(i / Cols, i % Cols))
  }

  /** The grid builder: two nested counting loops that append one alien per cell. */
  method Build() returns (grid: seq<Rect>)
    ensures grid == Grid()
  {
    grid := [];
    for row := 0 to Rows
      invariant |grid| == row * Cols
      invariant forall i :: 0 <= i < |grid| ==> grid[i] == Cell(i / Cols, i % Cols)
    {
      for col := 0 to Cols
        invariant |grid| == row * Cols + col
        invariant forall i :: 0 <= i < |grid| ==> grid[i] == Cell(i / Cols, i % Cols)
      {
        CellIndex(row, col);
        grid := grid + [Cell(row, col)];
      }
    }
  }

  lemma CellIndex(row: int, col: int)
    requires 0 <= col < Cols
    ensures (row * Cols + col) / Cols == row && (row * Cols + col) % Cols == col
  {
  }

  /** The fresh grid holds 32 aliens in row-major order: alien 8r + c sits at
      (40 + 40c, 60 + 30r) pixels, is 30 x 20 pixels, and lies inside the field,
      its left edge between 40 and 320 pixels and its right edge at most 350 pixels. */
  lemma GridLayout(row: int, col: int)
    requires 0 <= row < Rows && 0 <= col < Cols
    ensures |Grid()| == 32
    ensures Grid()[row * Cols + col] == Rect(400 + 400 * col, 600 + 300 * row, 300, 200)
    ensures 400 <= Grid()[row * Cols + col].x <= 3200
    ensures 400 <= Grid()[row * Cols + col].x + AlienW <= 3500
    ensures 600 <= Grid()[row * Cols + col].y <= 1500
  {
    CellIndex(row, col);
  }

  /** Every alien of the fresh grid is a 30 x 20 box inside the field. */
  lemma GridInside()
    ensures forall a :: a in Grid() ==> a.w == AlienW && a.h == AlienH
    ensures forall a :: a in Grid() ==> 0 <= a.x && a.x + a.w <= Width && 0 <= a.y && a.y + a.h <= Height
  {
    forall a | a in Grid()
      ensures a.w == AlienW && a.h == AlienH
      ensures 0 <= a.x && a.x + a.w <= Width && 0 <= a.y && a.y + a.h <= Height
    {
      var i :| 0 <= i < |Grid()| && Grid()[i] == a;
      assert a == Cell(i / Cols, i % Cols);
    }
  }

  /** `Math.min` of the aliens' x. */
  function LeftMost(s: seq<Rect>): (m: int)
    requires s != []
    ensures forall i :: 0 <= i < |s| ==> m <= s[i].x
    ensures exists i :: 0 <= i < |s| && s[i].x == m
  {
    if |s| == 1 then s[0].x
    else
      var t := LeftMost(s[1..]);
      assert forall i :: 1 <= i < |s| ==> s[1..][i - 1] == s[i];
      if s[0].x < t then s[0].x else t
  }

  /** `Math.max` of the aliens' right edges x + w. */
  function RightMost(s: seq<Rect>): (m: int)
    requires s != []
    ensures forall i :: 0 <= i < |s| ==> s[i].x + s[i].w <= m
    ensures exists i :: 0 <= i < |s| && s[i].x + s[i].w == m
  {
    if |s| == 1 then s[0].x + s[0].w
    else
      var t := RightMost(s[1..]);
      assert forall i :: 1 <= i < |s| ==> s[1..][i - 1] == s[i];
      if s[0].x + s[0].w > t then s[0].x + s[0].w else t
  }

  /** The bounce test. Over an empty formation `Math.min` gives +Infinity and
      `Math.max` gives -Infinity, so neither comparison holds and there is no bounce. */
  predicate Breaches(s: seq<Rect>) {
    s != [] && (LeftMost(s) < 0 || RightMost(s) > Width)
  }

  /** The bounce test fires exactly when some alien sticks out past the left or right wall. */
  lemma BreachesIff(s: seq<Rect>)
    ensures Breaches(s) <==> exists i :: 0 <= i < |s| && (s[i].x < 0 || s[i].x + s[i].w > Width)
  {
  }

  /** Every alien moved sideways by dx. */
  function Shifted(s: seq<Rect>, dx: int): (r: seq<Rect>)
    ensures |r| == |s|
  {
    seq(|s|, i requires 0 <= i < |s| => s[i].(x := s[i].x + dx))
  }

  /** Every alien moved down by dy. */
  function Lowered(s: seq<Rect>, dy: int): (r: seq<Rect>)
    ensures |r| == |s|
  {
    seq(|s|, i requires 0 <= i < |s| => s[i].(y := s[i].y + dy))
  }

  lemma ShiftedZero(s: seq<Rect>)
    ensures Shifted(s, 0) == s
  {
  }

  lemma ShiftedTwice(s: seq<Rect>, a: int, b: int)
    ensures Shifted(Shifted(s, a), b) == Shifted(s, a + b)
  {
  }

  /** Shifted right by d (d >= 0), the fresh grid crosses a wall exactly when d exceeds
      130 pixels: its right edge starts at 350 pixels. */
  lemma GridBreach(d: int)
    requires d >= 0
    ensures Breaches(Shifted(Grid(), d)) <==> d > 1300
  {
    var g := Shifted(Grid(), d);
    BreachesIff(g);
    if d > 1300 {
      GridLayout(0, 7);
      assert g[7] == Grid()[7].(x := Grid()[7].x + d);
      assert g[7].x + g[7].w > Width;
    } else {
      forall i | 0 <= i < |g|
        ensures 0 <= g[i].x && g[i].x + g[i].w <= Width
      {
        GridLayout(i / Cols, i % Cols);
      }
    }
  }

  /** The fresh grid moved sideways keeps its sizes and its rows, the lowest bottom
      edge at 170 pixels. */
  lemma ShiftedGridRows(d: int)
    ensures forall a :: a in Shifted(Grid(), d) ==> a.w == AlienW && a.h == AlienH && a.y + a.h <= 1700
  {
    var g := Shifted(Grid(), d);
    forall a | a in g
      ensures a.w == AlienW && a.h == AlienH && a.y + a.h <= 1700
    {
      var i :| 0 <= i < |g| && g[i] == a;
      GridLayout(i / Cols, i % Cols);
    }
  }

  /** The formation after one tick, and the direction for the next one. */
  datatype Sweep = Sweep(aliens: seq<Rect>, dir: int)

  function March(s: seq<Rect>, dir: int): Sweep {
    var moved := Shifted(s, dir * Speed);
    if Breaches(moved) then Sweep(Lowered(moved, Drop), dir * -1) else Sweep(moved, dir)
  }

  /** One tick of the formation: every alien moves by dir * 1.2 pixels; if that puts
      one past a wall the direction flips and every alien drops by exactly 20 pixels,
      otherwise direction and heights stay. Sizes never change. */
  lemma MarchSpec(s: seq<Rect>, dir: int)
    ensures var m := March(s, dir);
      && |m.aliens| == |s|
      && (forall i :: 0 <= i < |s| ==>
            m.aliens[i].x == s[i].x + dir * Speed && m.aliens[i].w == s[i].w && m.aliens[i].h == s[i].h)
      && (Breaches(Shifted(s, dir * Speed)) ==>
            m.dir == -dir && forall i :: 0 <= i < |s| ==> m.aliens[i].y == s[i].y + Drop)
      && (!Breaches(Shifted(s, dir * Speed)) ==>
            m.dir == dir && forall i :: 0 <= i < |s| ==> m.aliens[i].y == s[i].y)
  {
  }

  /** The formation moves as one block: the offsets between any two aliens are kept. */
  lemma MarchKeepsOffsets(s: seq<Rect>, dir: int, i: int, j: int)
    requires 0 <= i < |s| && 0 <= j < |s|
    ensures var m := March(s, dir).aliens;
      m[i].x - m[j].x == s[i].x - s[j].x && m[i].y - m[j].y == s[i].y - s[j].y
  {
  }

  /** The direction stays a unit: 1 (right) or -1 (left). */
  lemma MarchDirection(s: seq<Rect>, dir: int)
    requires dir == 1 || dir == -1
    ensures March(s, dir).dir == 1 || March(s, dir).dir == -1
  {
  }
}
