/**
 * The screen grid of `src/grid.rs`: a primary and an alternate grid of
 * cells, a cursor, a saved cursor, a scroll position and the current pen.
 *
 * The primary grid grows by appending rows instead of scrolling, and the
 * cursor column is never clamped. The character-writing operations
 * (`place_character_in_grid`, `delete_character`, `clear_screen`) act on the
 * primary grid whichever grid is active, exactly as the Rust code does.
 */
module Grid {
  import opened Ints
  import opened Styles

  /** The variants of `SgrAttribute` are not part of this model; only its default value is distinguished. */
  datatype SgrAttribute = DefaultAttribute | Attribute(code: nat)

  datatype Cell = Cell(ch: char, fg: Color, bg: Color, attrs: seq<SgrAttribute>)

  /** The active text and background colours used for every new or erased cell. */
  datatype Pen = Pen(fg: Color, bg: Color)

  datatype Pos = Pos(row: nat, col: nat)

  datatype Grid = Grid(
    cells: seq<seq<Cell>>,
    alternateScreen: seq<seq<Cell>>,
    alternate: bool,
    width: nat,
    height: nat,
    cursor: Pos,
    savedCursor: Pos,
    scrollPos: nat,
    pen: Pen)

  /** `Cell::default`: a space, white on black, carrying the default attribute. */
  function DefaultCell(): (c: Cell)
    ensures c.ch == ' ' && c.fg == White && c.bg == Black
    ensures c.attrs == [DefaultAttribute]
  {
    Cell(' ', White, Black, [DefaultAttribute])
  }

  /** `Cell::new(' ', fg, bg)`: an erased cell in the pen's colours, without attributes. */
  function Blank(pen: Pen): Cell {
    Cell(' ', pen.fg, pen.bg, [])
  }

  /** The cell written for a printed character. */
  function Printed(c: char, pen: Pen): Cell {
    Cell(c, pen.fg, pen.bg, [])
  }

  /** The pen of `Styles::default`. */
  function DefaultPen(): Pen {
    Pen(DefaultStyles().textColor, DefaultStyles().backgroundColor)
  }

  function Filled(rows: nat, cols: nat, c: Cell): (g: seq<seq<Cell>>)
    ensures |g| == rows
    ensures forall i :: 0 <= i < rows ==> |g[i]| == cols
    ensures forall i, j :: 0 <= i < rows && 0 <= j < cols ==> g[i][j] == c
  {
    seq(rows, _ => seq(cols, _ => c))
  }

  predicate Shaped(rows: seq<seq<Cell>>, width: nat) {
    forall i :: 0 <= i < |rows| ==> |rows[i]| == width
  }

  /** Every cell of every row is `c`. */
  predicate AllCells(rows: seq<seq<Cell>>, c: Cell) {
    forall i, j :: 0 <= i < |rows| && 0 <= j < |rows[i]| ==> rows[i][j] == c
  }

  /** The state every reachable grid is in: `width`/`height` are `u16`, both grids are rectangular, and the cursor rows index existing primary rows. */
  predicate Valid(g: Grid) {
    && IsU16(g.width) && IsU16(g.height) && g.height >= 1
    && |g.cells| >= 1 && Shaped(g.cells, g.width)
    && |g.alternateScreen| == g.height && Shaped(g.alternateScreen, g.width)
    && g.cursor.row < |g.cells| && g.savedCursor.row < |g.cells|
    && g.scrollPos < |g.cells|
  }

  /** `b` extends `a` with appended blank rows; no existing row changed. */
  predicate GrewWithBlanks(a: seq<seq<Cell>>, b: seq<seq<Cell>>, width: nat, pen: Pen) {
    && |a| <= |b|
    && b[..|a|] == a
    && forall i :: |a| <= i < |b| ==> |b[i]| == width && AllCells([b[i]], Blank(pen))
  }

  /** Every row of `b` past the end of `a` is `width` cells wide and blank in the pen's colours, except perhaps the cell at `p`. */
  predicate AppendedBlankExcept(a: seq<seq<Cell>>, b: seq<seq<Cell>>, width: nat, pen: Pen, p: Pos) {
    forall i :: |a| <= i < |b| ==>
      && |b[i]| == width
      && forall j :: 0 <= j < width && (i != p.row || j != p.col) ==> b[i][j] == Blank(pen)
  }

  /** Every cell of `a` other than the one at `p` is unchanged in `b`. */
  predicate SameExcept(a: seq<seq<Cell>>, b: seq<seq<Cell>>, p: Pos) {
    && |a| <= |b|
    && forall i :: 0 <= i < |a| ==>
         && |b[i]| == |a[i]|
         && forall j :: 0 <= j < |a[i]| && (i != p.row || j != p.col) ==> b[i][j] == a[i][j]
  }

  /** The fields no cursor or cell operation touches. */
  predicate SameFrame(g: Grid, r: Grid) {
    && r.alternateScreen == g.alternateScreen && r.alternate == g.alternate
    && r.width == g.width && r.height == g.height && r.pen == g.pen
  }

  /** `Grid::new`: both grids are `rows x cols` default cells, the cursor and saved cursor are at the origin, and the primary grid is active. */
  function NewGrid(rows: nat, cols: nat): (g: Grid)
    requires IsU16(rows) && IsU16(cols)
    requires rows >= 1
    ensures Valid(g)
    ensures |g.cells| == rows && Shaped(g.cells, cols) && AllCells(g.cells, DefaultCell())
    ensures |g.alternateScreen| == rows && AllCells(g.alternateScreen, DefaultCell())
    ensures g.width == cols && g.height == rows
    ensures g.cursor == Pos(0, 0) && g.savedCursor == Pos(0, 0)
    ensures g.scrollPos == rows - 1
    ensures !g.alternate && g.pen == Pen(White, Black)
  {
    Grid(Filled(rows, cols, DefaultCell()), Filled(rows, cols, DefaultCell()), false,
         cols, rows, Pos(0, 0), Pos(0, 0), rows - 1, DefaultPen())
  }

  /** `Grid::active_grid`. */
  function ActiveGrid(g: Grid): (a: seq<seq<Cell>>)
    ensures g.alternate ==> a == g.alternateScreen
    ensures !g.alternate ==> a == g.cells
  {
    if g.alternate then g.alternateScreen else g.cells
  }

  /** `Grid::swap_active_grid`: toggles the active grid; leaving the alternate screen resets it to blanks. */
  function SwapActiveGrid(g: Grid): (r: Grid)
    requires Valid(g)
    ensures Valid(r)
    ensures r.alternate == !g.alternate
    ensures r.cells == g.cells && r.cursor == g.cursor && r.savedCursor == g.savedCursor
    ensures r.scrollPos == g.scrollPos && r.pen == g.pen && r.width == g.width && r.height == g.height
    ensures !g.alternate ==> r.alternateScreen == g.alternateScreen
    ensures g.alternate ==> |r.alternateScreen| == g.height && AllCells(r.alternateScreen, Blank(g.pen))
  {
    if g.alternate then
      g.(alternate := false, alternateScreen := Filled(g.height, g.width, Blank(g.pen)))
    else
      g.(alternate := true)
  }

  /** `Grid::add_rows`: appends `n` blank rows of `width` cells in the pen's colours. */
  function AddRows(g: Grid, n: nat): (r: Grid)
    requires Valid(g)
    ensures Valid(r)
    ensures |r.cells| == |g.cells| + n
    ensures GrewWithBlanks(g.cells, r.cells, g.width, g.pen)
    ensures SameFrame(g, r)
    ensures r.cursor == g.cursor && r.savedCursor == g.savedCursor && r.scrollPos == g.scrollPos
  {
    var r := g.(cells := g.cells + Filled(n, g.width, Blank(g.pen)));
    assert r.cells[..|g.cells|] == g.cells;
    r
  }

  /** `Grid::set_pos`: moves the cursor to exactly `(row, col)`, growing the primary grid when `row` is past its end. */
  function SetPos(g: Grid, row: nat, col: nat): (r: Grid)
    requires Valid(g)
    ensures Valid(r)
    ensures r.cursor == Pos(row, col)
    ensures row >= |g.cells| ==> |r.cells| == row + 1 && r.scrollPos == row
    ensures row < |g.cells| ==> r.cells == g.cells && r.scrollPos == g.scrollPos
    ensures GrewWithBlanks(g.cells, r.cells, g.width, g.pen)
    ensures SameFrame(g, r) && r.savedCursor == g.savedCursor
  {
    var grown := if row >= |g.cells| then AddRows(g, row - |g.cells| + 1).(scrollPos := row) else g;
    grown.(cursor := Pos(row, col))
  }

  /** Where `place_character_in_grid` puts the cursor before dispatching on the character: one row down at column 0 when the column is at or past `cols - 1`. */
  function WrapTarget(p: Pos, cols: nat): (w: Pos)
    requires cols >= 1
    ensures w.col < cols - 1 || (cols == 1 && w.col == 0)
    ensures p.col < cols - 1 ==> w == p
    ensures p.col >= cols - 1 ==> w == Pos(p.row + 1, 0)
  {
    if p.col >= cols - 1 then Pos(p.row + 1, 0) else p
  }

  predicate IsLineControl(c: char) {
    c == '\n' || c == '\r'
  }

  /** What `place_character_in_grid` needs to avoid an index panic: a printed character must land inside its row. */
  predicate PlaceInBounds(g: Grid, cols: nat, c: char)
    requires cols >= 1
  {
    IsLineControl(c) || WrapTarget(g.cursor, cols).col < g.width
  }

  /** The cursor move `place_character_in_grid` makes before dispatching on the character. */
  function Wrap(g: Grid, cols: nat): (r: Grid)
    requires Valid(g) && cols >= 1
    ensures Valid(r)
    ensures r.cursor == WrapTarget(g.cursor, cols)
    ensures GrewWithBlanks(g.cells, r.cells, g.width, g.pen)
    ensures |r.cells| == if r.cursor.row < |g.cells| then |g.cells| else r.cursor.row + 1
    ensures r.scrollPos == if r.cursor.row < |g.cells| then g.scrollPos else r.cursor.row
    ensures SameFrame(g, r) && r.savedCursor == g.savedCursor
  {
    if g.cursor.col >= cols - 1 then SetPos(g, g.cursor.row + 1, 0) else g
  }

  /** Overwrites the cell at `p`, which must exist. */
  function WriteCell(g: Grid, p: Pos, cell: Cell): (r: Grid)
    requires Valid(g) && p.row < |g.cells| && p.col < g.width
    ensures Valid(r)
    ensures SameFrame(g, r) && r.cursor == g.cursor && r.savedCursor == g.savedCursor && r.scrollPos == g.scrollPos
    ensures |r.cells| == |g.cells| && r.cells[p.row][p.col] == cell
    ensures SameExcept(g.cells, r.cells, p)
  {
    g.(cells := g.cells[p.row := g.cells[p.row][p.col := cell]])
  }

  /** Growing by blank rows and then changing one cell leaves every other original cell alone. */
  lemma GrowThenWrite(a: seq<seq<Cell>>, b: seq<seq<Cell>>, c: seq<seq<Cell>>, width: nat, pen: Pen, p: Pos)
    requires GrewWithBlanks(a, b, width, pen) && SameExcept(b, c, p)
    ensures SameExcept(a, c, p)
  {
    forall i | 0 <= i < |a|
      ensures |c[i]| == |a[i]|
      ensures forall j :: 0 <= j < |a[i]| && (i != p.row || j != p.col) ==> c[i][j] == a[i][j]
    {
      assert a[i] == b[..|a|][i] == b[i];
    }
  }

  /** `Grid::place_character_in_grid`: wraps first, then handles '\n', '\r' or writes the character with the pen and advances. */
  function PlaceCharacterInGrid(g: Grid, cols: nat, c: char): (r: Grid)
    requires Valid(g) && IsU16(cols) && cols >= 1
    requires PlaceInBounds(g, cols, c)
    ensures Valid(r)
    ensures SameFrame(g, r) && r.savedCursor == g.savedCursor
    ensures c == '\n' ==> r.cursor == Pos(WrapTarget(g.cursor, cols).row + 1, 0)
    ensures c == '\r' ==> r.cursor == Pos(WrapTarget(g.cursor, cols).row, 0)
    ensures IsLineControl(c) ==> GrewWithBlanks(g.cells, r.cells, g.width, g.pen)
    ensures var t := if c == '\n' then WrapTarget(g.cursor, cols).row + 1 else WrapTarget(g.cursor, cols).row;
      && r.scrollPos == (if t >= |g.cells| then t else g.scrollPos)
      && (IsLineControl(c) ==> |r.cells| == if t < |g.cells| then |g.cells| else t + 1)
    ensures !IsLineControl(c) ==>
      var w := WrapTarget(g.cursor, cols);
      && r.cursor == Pos(w.row, w.col + 1)
      && r.cells[w.row][w.col] == Printed(c, g.pen)
      && SameExcept(g.cells, r.cells, w)
      && |r.cells| == if w.row < |g.cells| then |g.cells| else w.row + 1
    ensures !IsLineControl(c) ==> AppendedBlankExcept(g.cells, r.cells, g.width, g.pen, WrapTarget(g.cursor, cols))
  {
    var g1 := Wrap(g, cols);
    var row := g1.cursor.row;
    var col := g1.cursor.col;
    if c == '\n' then
      var r := SetPos(g1, row + 1, 0);
      GrewTransitive(g.cells, g1.cells, r.cells, g.width, g.pen);
      r
    else if c == '\r' then
      SetPos(g1, row, 0)
    else
      var written := WriteCell(g1, g1.cursor, Printed(c, g1.pen));
      GrowThenWrite(g.cells, g1.cells, written.cells, g.width, g.pen, g1.cursor);
      GrowThenWriteBlank(g.cells, g1.cells, written.cells, g.width, g.pen, g1.cursor);
      SetPos(written, row, col + 1)
  }

  /** Growing by blank rows and then changing one cell leaves the new rows blank apart from that cell. */
  lemma GrowThenWriteBlank(a: seq<seq<Cell>>, b: seq<seq<Cell>>, c: seq<seq<Cell>>, width: nat, pen: Pen, p: Pos)
    requires GrewWithBlanks(a, b, width, pen) && |c| == |b| && SameExcept(b, c, p)
    ensures AppendedBlankExcept(a, c, width, pen, p)
  {
    forall i | |a| <= i < |c|
      ensures |c[i]| == width
      ensures forall j :: 0 <= j < width && (i != p.row || j != p.col) ==> c[i][j] == Blank(pen)
    {
      forall j | 0 <= j < width && (i != p.row || j != p.col)
        ensures c[i][j] == Blank(pen)
      {
        assert [b[i]][0] == b[i];
      }
    }
  }

  lemma GrewTransitive(a: seq<seq<Cell>>, b: seq<seq<Cell>>, c: seq<seq<Cell>>, width: nat, pen: Pen)
    requires GrewWithBlanks(a, b, width, pen) && GrewWithBlanks(b, c, width, pen)
    ensures GrewWithBlanks(a, c, width, pen)
  {
    assert c[..|a|] == c[..|b|][..|a|];
  }

  /** `Grid::clear_screen`: every primary cell becomes a blank in the pen's colours; the dimensions, the cursor and the alternate grid are kept. */
  function ClearScreen(g: Grid): (r: Grid)
    requires Valid(g)
    ensures Valid(r)
    ensures |r.cells| == |g.cells| && Shaped(r.cells, g.width)
    ensures AllCells(r.cells, Blank(g.pen))
    ensures SameFrame(g, r)
    ensures r.cursor == g.cursor && r.savedCursor == g.savedCursor && r.scrollPos == g.scrollPos
  {
    g.(cells := Filled(|g.cells|, |g.cells[0]|, Blank(g.pen)))
  }

  /** What `delete_character` needs to avoid an index panic: the cursor is inside its row. */
  predicate DeleteInBounds(g: Grid) {
    g.cursor.col < g.width
  }

  /** `Grid::delete_character`: blanks the cell under the cursor, then steps the cursor back one cell, to the end of the previous row from column 0, and not at all from the origin. */
  function DeleteCharacter(g: Grid): (r: Grid)
    requires Valid(g) && DeleteInBounds(g)
    ensures Valid(r)
    ensures SameFrame(g, r) && r.savedCursor == g.savedCursor && r.scrollPos == g.scrollPos
    ensures |r.cells| == |g.cells| && SameExcept(g.cells, r.cells, g.cursor)
    ensures r.cells[g.cursor.row][g.cursor.col] == Blank(g.pen)
    ensures g.cursor.col > 0 ==> r.cursor == Pos(g.cursor.row, g.cursor.col - 1)
    ensures g.cursor.col == 0 && g.cursor.row > 0 ==> r.cursor == Pos(g.cursor.row - 1, g.width - 1)
    ensures g.cursor == Pos(0, 0) ==> r.cursor == g.cursor
  {
    var p := g.cursor;
    var cols := |g.cells[0]|;
    var cleared := WriteCell(g, p, Blank(g.pen));
    if p.col > 0 then
      SetPos(cleared, p.row, p.col - 1)
    else if p.row > 0 then
      SetPos(cleared, p.row - 1, cols - 1)
    else
      cleared
  }

  /** `Grid::save_cursor`. */
  function SaveCursor(g: Grid): (r: Grid)
    requires Valid(g)
    ensures Valid(r)
    ensures r.savedCursor == g.cursor
    ensures r == g.(savedCursor := r.savedCursor)
  {
    g.(savedCursor := g.cursor)
  }

  /** `Grid::restore_cursor`. */
  function RestoreCursor(g: Grid): (r: Grid)
    requires Valid(g)
    ensures Valid(r)
    ensures r.cursor == g.savedCursor
    ensures r == g.(cursor := r.cursor)
  {
    g.(cursor := g.savedCursor)
  }
}
