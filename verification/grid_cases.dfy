/**
 * The concrete scenarios of `src/grid/tests.rs`, on the default
 * configuration of 60 rows by 80 columns unless a test sets its own.
 */
module GridCases {
  import opened Grid

  const DefaultRows: nat := 60
  const DefaultCols: nat := 80

  /** Overwrites one cell the way the tests do, with `Cell { char, ..Cell::default() }`. */
  function WithChar(g: Grid, row: nat, col: nat, c: char): (r: Grid)
    requires Valid(g) && row < |g.cells| && col < g.width
    ensures Valid(r) && r.cursor == g.cursor && r.width == g.width && |r.cells| == |g.cells|
    ensures r.cells[row][col].ch == c && SameExcept(g.cells, r.cells, Pos(row, col))
  {
    WriteCell(g, Pos(row, col), DefaultCell().(ch := c))
  }

  lemma SetPosSetsCursor()
    ensures SetPos(NewGrid(DefaultRows, DefaultCols), 5, 10).cursor == Pos(5, 10)
  {
  }

  lemma DeleteCharacterInRow()
    ensures var g := SetPos(NewGrid(DefaultRows, DefaultCols), 5, 10);
            var g1 := WithChar(g, 5, 10, 'a');
            && DeleteInBounds(g1)
            && DeleteCharacter(g1).cursor == Pos(5, 9)
            && DeleteCharacter(g1).cells[5][10].ch == ' '
  {
  }

  lemma DeleteCharacterWrapsToPreviousLine()
    ensures var g := SetPos(NewGrid(10, 10), 9, 0);
            var g1 := WithChar(g, 9, 0, 'a');
            && DeleteInBounds(g1)
            && DeleteCharacter(g1).cursor == Pos(8, 9)
            && DeleteCharacter(g1).cells[9][0].ch == ' '
  {
  }

  lemma PlaceCharacterWraps()
    ensures var g := SetPos(NewGrid(DefaultRows, DefaultCols), 5, 10);
            && PlaceInBounds(g, 10, 'a')
            && PlaceCharacterInGrid(g, 10, 'a').cursor == Pos(6, 1)
            && PlaceCharacterInGrid(g, 10, 'a').cells[6][0].ch == 'a'
  {
  }

  lemma NewlineMovesToNextLineStart()
    ensures PlaceCharacterInGrid(SetPos(NewGrid(DefaultRows, DefaultCols), 5, 5), 10, '\n').cursor == Pos(6, 0)
  {
  }

  lemma CarriageReturnMovesToLineStart()
    ensures PlaceCharacterInGrid(SetPos(NewGrid(DefaultRows, DefaultCols), 5, 5), 10, '\r').cursor == Pos(5, 0)
  {
  }

  lemma ClearScreenBlanksEverything(fill: char)
    ensures var g := NewGrid(DefaultRows, DefaultCols);
            var filled := g.(cells := Filled(DefaultRows, DefaultCols, Cell(fill, Styles.White, Styles.Black, [])));
            && Valid(filled)
            && forall i, j :: 0 <= i < |ClearScreen(filled).cells| && 0 <= j < |ClearScreen(filled).cells[i]| ==>
                 ClearScreen(filled).cells[i][j].ch == ' '
  {
  }
}
