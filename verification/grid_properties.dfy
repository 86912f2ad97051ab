/**
 * Properties relating several grid operations: cursor save/restore, screen
 * swapping, row growth, and runs of printed characters.
 */
module GridProperties {
  import opened Ints
  import opened Grid

  /** Saving and then restoring without moving in between changes nothing but the saved cursor. */
  lemma SaveThenRestoreIsSave(g: Grid)
    requires Valid(g)
    ensures RestoreCursor(SaveCursor(g)) == SaveCursor(g)
  {
  }

  /** After a save, moving anywhere and restoring brings the cursor back to the saved position without touching any cell the move did not add. */
  lemma RestoreAfterMoveReturns(g: Grid, row: nat, col: nat)
    requires Valid(g)
    ensures var moved := SetPos(SaveCursor(g), row, col);
            && RestoreCursor(moved).cursor == g.cursor
            && RestoreCursor(moved).cells == moved.cells
            && moved.cells[..|g.cells|] == g.cells
  {
  }

  /** Swapping selects the other grid: the active grid after a swap is the one that was inactive (a fresh blank one when leaving the alternate screen). */
  lemma SwapSelectsOtherGrid(g: Grid)
    requires Valid(g)
    ensures !g.alternate ==> ActiveGrid(SwapActiveGrid(g)) == g.alternateScreen
    ensures g.alternate ==> ActiveGrid(SwapActiveGrid(g)) == g.cells
  {
  }

  /** Entering and leaving the alternate screen restores the primary grid and cursor exactly and leaves a blank alternate grid behind. */
  lemma SwapTwiceRestoresPrimary(g: Grid)
    requires Valid(g) && !g.alternate
    ensures var r := SwapActiveGrid(SwapActiveGrid(g));
            && !r.alternate
            && r.cells == g.cells && r.cursor == g.cursor && ActiveGrid(r) == ActiveGrid(g)
            && |r.alternateScreen| == g.height && AllCells(r.alternateScreen, Blank(g.pen))
  {
  }

  /** While the alternate screen is active, a printed character still lands in the primary grid: the grid on display is untouched and the primary cell under the (wrapped) cursor changes. */
  lemma PrintOnAlternateScreenWritesPrimary(g: Grid, cols: nat, c: char)
    requires Valid(g) && g.alternate && IsU16(cols) && cols >= 1
    requires !IsLineControl(c) && PlaceInBounds(g, cols, c)
    ensures var r := PlaceCharacterInGrid(g, cols, c);
            var w := WrapTarget(g.cursor, cols);
            && r.alternate
            && ActiveGrid(r) == ActiveGrid(g)
            && r.cells[w.row][w.col] == Printed(c, g.pen)
  {
  }

  /** Adding rows in two steps is the same as adding them in one. */
  lemma {:induction false} AddRowsAdditive(g: Grid, a: nat, b: nat)
    requires Valid(g)
    ensures AddRows(AddRows(g, a), b) == AddRows(g, a + b)
  {
    var blank := Blank(g.pen);
    assert Filled(a, g.width, blank) + Filled(b, g.width, blank) == Filled(a + b, g.width, blank);
    assert g.cells + Filled(a, g.width, blank) + Filled(b, g.width, blank)
        == g.cells + (Filled(a, g.width, blank) + Filled(b, g.width, blank));
  }

  /** Moving to the same place twice is the same as moving there once. */
  lemma SetPosIdempotent(g: Grid, row: nat, col: nat)
    requires Valid(g)
    ensures SetPos(SetPos(g, row, col), row, col) == SetPos(g, row, col)
  {
  }

  /** With at least two columns, a printed character never lands in column `cols - 1` or beyond: every cell there keeps its old content. */
  lemma PlaceKeepsLastColumns(g: Grid, cols: nat, c: char)
    requires Valid(g) && IsU16(cols) && cols >= 2
    requires PlaceInBounds(g, cols, c)
    ensures var r := PlaceCharacterInGrid(g, cols, c);
            forall i, j :: 0 <= i < |g.cells| && cols - 1 <= j < |g.cells[i]| ==> r.cells[i][j] == g.cells[i][j]
  {
    var r := PlaceCharacterInGrid(g, cols, c);
    if IsLineControl(c) {
      forall i | 0 <= i < |g.cells|
        ensures r.cells[i] == g.cells[i]
      {
        assert r.cells[..|g.cells|][i] == r.cells[i];
      }
    }
  }

  /** Printing a character and then deleting puts the cursor back where it was, when the character did not wrap. */
  lemma PlaceThenDeleteReturnsCursor(g: Grid, cols: nat, c: char)
    requires Valid(g) && IsU16(cols) && cols >= 1
    requires !IsLineControl(c) && g.cursor.col < cols - 1 && g.cursor.col + 1 < g.width
    ensures PlaceInBounds(g, cols, c)
    ensures DeleteInBounds(PlaceCharacterInGrid(g, cols, c))
    ensures DeleteCharacter(PlaceCharacterInGrid(g, cols, c)).cursor == g.cursor
    ensures DeleteCharacter(PlaceCharacterInGrid(g, cols, c)).cells[g.cursor.row][g.cursor.col] == Printed(c, g.pen)
  {
  }

  /** Feeding the characters of `s` one by one to `place_character_in_grid`. The column count may exceed the row width by one, so no printed character can fall outside its row. */
  function PlaceString(g: Grid, cols: nat, s: string): (r: Grid)
    requires Valid(g) && IsU16(cols) && cols >= 1
    requires g.width >= 1 && cols <= g.width + 1
    ensures Valid(r) && SameFrame(g, r) && r.savedCursor == g.savedCursor
    ensures |r.cells| >= |g.cells|
    decreases |s|
  {
    if |s| == 0 then g
    else PlaceString(PlaceCharacterInGrid(g, cols, s[0]), cols, s[1..])
  }

  predicate NoLineControls(s: string) {
    forall k :: 0 <= k < |s| ==> !IsLineControl(s[k])
  }

  /** A run of printable characters that fits before column `cols - 1` is laid out left to right on the cursor's row, the cursor ends just after it, and nothing else changes. */
  lemma {:induction false} PrintRun(g: Grid, cols: nat, s: string)
    requires Valid(g) && IsU16(cols) && cols >= 1
    requires g.width >= 1 && cols <= g.width + 1
    requires NoLineControls(s) && g.cursor.col + |s| <= cols - 1
    ensures var r := PlaceString(g, cols, s);
            && r.cursor == Pos(g.cursor.row, g.cursor.col + |s|)
            && |r.cells| == |g.cells|
            && (forall k :: 0 <= k < |s| ==> r.cells[g.cursor.row][g.cursor.col + k] == Printed(s[k], g.pen))
            && SameOutside(g.cells, r.cells, g.cursor.row, g.cursor.col, g.cursor.col + |s|)
    decreases |s|
  {
    var row, col := g.cursor.row, g.cursor.col;
    if |s| == 0 {
      SameOutsideRefl(g.cells, row, col);
    } else {
      var g1 := PlaceCharacterInGrid(g, cols, s[0]);
      PrintStep(g, cols, s[0]);
      var rest := s[1..];
      assert NoLineControls(rest) by {
        forall k | 0 <= k < |rest| ensures !IsLineControl(rest[k]) {
          assert rest[k] == s[k + 1];
        }
      }
      PrintRun(g1, cols, rest);
      var r := PlaceString(g1, cols, rest);
      assert r == PlaceString(g, cols, s);
      PrintRunStep(g, g1, r, s);
    }
  }

  /** The inductive step of `PrintRun`: the first character placed by `g` to `g1`, the rest of the run placed by `g1` to `r`. */
  lemma PrintRunStep(g: Grid, g1: Grid, r: Grid, s: string)
    requires |s| > 0 && g.cursor.row < |g.cells| && g.cursor.col + |s| <= |g.cells[g.cursor.row]|
    requires g1.cursor == Pos(g.cursor.row, g.cursor.col + 1) && g1.pen == g.pen && |g1.cells| == |g.cells|
    requires SameExcept(g.cells, g1.cells, g.cursor) && g1.cells[g.cursor.row][g.cursor.col] == Printed(s[0], g.pen)
    requires r.cursor == Pos(g1.cursor.row, g1.cursor.col + |s[1..]|) && |r.cells| == |g1.cells|
    requires SameOutside(g1.cells, r.cells, g1.cursor.row, g1.cursor.col, g1.cursor.col + |s[1..]|)
    requires forall k :: 0 <= k < |s[1..]| ==> r.cells[g1.cursor.row][g1.cursor.col + k] == Printed(s[1..][k], g1.pen)
    ensures r.cursor == Pos(g.cursor.row, g.cursor.col + |s|) && |r.cells| == |g.cells|
    ensures forall k :: 0 <= k < |s| ==> r.cells[g.cursor.row][g.cursor.col + k] == Printed(s[k], g.pen)
    ensures SameOutside(g.cells, r.cells, g.cursor.row, g.cursor.col, g.cursor.col + |s|)
  {
    var row, col := g.cursor.row, g.cursor.col;
    RunExtends(g1.cells, r.cells, s, row, col, g.pen);
    SameOutsideStep(g.cells, g1.cells, r.cells, row, col, col + |s|);
  }

  /** One printable character before the wrap column: written at the cursor, which moves right by one; nothing else changes. */
  lemma PrintStep(g: Grid, cols: nat, c: char)
    requires Valid(g) && IsU16(cols) && cols >= 1
    requires g.width >= 1 && cols <= g.width + 1
    requires !IsLineControl(c) && g.cursor.col < cols - 1
    ensures PlaceInBounds(g, cols, c)
    ensures var r := PlaceCharacterInGrid(g, cols, c);
            && Valid(r) && SameFrame(g, r)
            && r.cursor == Pos(g.cursor.row, g.cursor.col + 1)
            && |r.cells| == |g.cells|
            && r.cells[g.cursor.row][g.cursor.col] == Printed(c, g.pen)
            && SameExcept(g.cells, r.cells, g.cursor)
  {
    assert WrapTarget(g.cursor, cols) == g.cursor;
  }

  /** A cell printed at `col`, followed by a run printed from `col + 1` that leaves it alone, is a run printed from `col`. */
  lemma RunExtends(b: seq<seq<Cell>>, c: seq<seq<Cell>>, s: string, row: nat, col: nat, pen: Pen)
    requires |s| > 0 && row < |b| && col + |s| <= |b[row]| && b[row][col] == Printed(s[0], pen)
    requires SameOutside(b, c, row, col + 1, col + |s|)
    requires forall k :: 0 <= k < |s| - 1 ==> c[row][col + 1 + k] == Printed(s[1..][k], pen)
    ensures forall k :: 0 <= k < |s| ==> c[row][col + k] == Printed(s[k], pen)
  {
    forall k | 0 <= k < |s|
      ensures c[row][col + k] == Printed(s[k], pen)
    {
      if k > 0 {
        assert s[1..][k - 1] == s[k];
        assert c[row][col + 1 + (k - 1)] == Printed(s[1..][k - 1], pen);
      } else {
        assert c[row][col] == b[row][col];
      }
    }
  }

  /** Every cell of `b` equals the one in `a`, except on row `row` in columns `lo` to `hi - 1`. */
  predicate SameOutside(a: seq<seq<Cell>>, b: seq<seq<Cell>>, row: nat, lo: nat, hi: nat) {
    && |a| == |b|
    && forall i :: 0 <= i < |a| ==>
         && |b[i]| == |a[i]|
         && forall j :: 0 <= j < |a[i]| && (i != row || j < lo || hi <= j) ==> b[i][j] == a[i][j]
  }

  lemma SameOutsideRefl(a: seq<seq<Cell>>, row: nat, col: nat)
    ensures SameOutside(a, a, row, col, col)
  {
  }

  /** One written cell followed by a run written just after it is a run starting at that cell. */
  lemma SameOutsideStep(a: seq<seq<Cell>>, b: seq<seq<Cell>>, c: seq<seq<Cell>>, row: nat, col: nat, hi: nat)
    requires |a| == |b| && SameExcept(a, b, Pos(row, col))
    requires SameOutside(b, c, row, col + 1, hi) && col < hi
    ensures SameOutside(a, c, row, col, hi)
  {
    forall i | 0 <= i < |a|
      ensures |c[i]| == |a[i]|
      ensures forall j :: 0 <= j < |a[i]| && (i != row || j < col || hi <= j) ==> c[i][j] == a[i][j]
    {
      forall j | 0 <= j < |a[i]| && (i != row || j < col || hi <= j)
        ensures c[i][j] == a[i][j]
      {
        assert b[i][j] == a[i][j];
      }
    }
  }
}
