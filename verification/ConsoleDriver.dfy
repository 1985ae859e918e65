/** The console in its own form: a cursor and colour in static fields, and the screen
    memory written in place. */
module ConsoleDriver {
  import opened Common
  import opened Console

  lemma RowsCleared(was: seq<Cell>, i: nat, color: Byte)
    requires |was| == CELLS && i < ROWS
    ensures var now := Blanks(COLS * i, color) + was[COLS * i..];
      now[..COLS * i] + Blanks(COLS, color) + now[COLS * (i + 1)..]
      == Blanks(COLS * (i + 1), color) + was[COLS * (i + 1)..]
  {
  }

  /** The first n cells replaced by those one row below. */
  ghost function Scrolled(was: seq<Cell>, n: nat): seq<Cell>
    requires |was| == CELLS && n <= CELLS - COLS
  {
    was[COLS..COLS + n] + was[n..]
  }

  lemma OneScrolled(was: seq<Cell>, n: nat)
    requires |was| == CELLS && n < CELLS - COLS
    ensures Scrolled(was, n + 1) == Scrolled(was, n)[n := was[n + COLS]]
    ensures Scrolled(was, n)[n + COLS] == was[n + COLS]
  {
  }

  lemma AllScrolled(was: seq<Cell>, color: Byte)
    requires |was| == CELLS
    ensures var now := Scrolled(was, CELLS - COLS);
      now[..COLS * (ROWS - 1)] + Blanks(COLS, color) + now[COLS * ROWS..] == was[COLS..] + Blanks(COLS, color)
  {
  }

  class Vga {
    var x: nat
    var y: nat
    var color: Byte
    const cells: array<Cell>

    ghost function View(): Screen reads this, cells { Screen(cells[..], x, y, color) }

    ghost predicate Fit() reads this, cells { Ok(View()) }

    /** The screen memory is where it is; the cursor starts at home. */
    constructor (memory: array<Cell>, c: Byte)
      requires memory.Length == CELLS
      ensures Fit() && cells == memory && Pos(View()) == 0
    {
      cells := memory;
      x, y, color := 0, 0, c;
    }

    method SetXY(cx: nat, cy: nat)
      requires Fit()
      modifies this
      ensures Fit() && View() == Do(old(View()), Op.SetXY(cx, cy))
    {
      if cx >= COLS || cy >= ROWS {
        return;
      }
      x, y := cx, cy;
    }

    method ClearRow(row: nat)
      requires Fit() && row < ROWS
      modifies cells
      ensures Fit()
      ensures cells[..] == old(cells[..])[..COLS * row] + Blanks(COLS, color) + old(cells[..])[COLS * (row + 1)..]
    {
      var i := 0;
      while i < COLS
        invariant 0 <= i <= COLS
        invariant cells[..] == old(cells[..])[..COLS * row] + Blanks(i, color) + old(cells[..])[COLS * row + i..]
      {
        cells[i + row * COLS] := Cell(0, color);
        i := i + 1;
      }
    }

    method Clear()
      requires Fit()
      modifies this, cells
      ensures Fit() && View() == Do(old(View()), Op.Clear)
    {
      x, y := 0, 0;
      var i := 0;
      while i < ROWS
        modifies cells
        invariant 0 <= i <= ROWS && Fit()
        invariant cells[..] == Blanks(COLS * i, color) + old(cells[..])[COLS * i..]
      {
        ClearRow(i);
        RowsCleared(old(cells[..]), i, color);
        i := i + 1;
      }
    }

    /** Next row, scrolling by one when there is none. */
    method NewLine()
      requires Fit()
      modifies this, cells
      ensures Fit() && View() == Console.NewLine(old(View()))
    {
      x := 0;
      if y < ROWS - 1 {
        y := y + 1;
        return;
      }
      ghost var was := cells[..];
      var row := 1;
      while row < ROWS
        modifies cells
        invariant 1 <= row <= ROWS && cells.Length == CELLS
        invariant cells[..] == Scrolled(was, COLS * (row - 1))
      {
        CopyRow(row, was);
        row := row + 1;
      }
      ClearRow(ROWS - 1);
      AllScrolled(was, color);
    }

    /** One row, cell by cell, onto the row above. */
    method CopyRow(row: nat, ghost was: seq<Cell>)
      requires 1 <= row < ROWS && cells.Length == CELLS == |was| && cells[..] == Scrolled(was, COLS * (row - 1))
      modifies cells
      ensures cells[..] == Scrolled(was, COLS * row)
    {
      var col := 0;
      while col < COLS
        invariant 0 <= col <= COLS && cells.Length == CELLS
        invariant cells[..] == Scrolled(was, COLS * (row - 1) + col)
      {
        OneScrolled(was, COLS * (row - 1) + col);
        assert cells[..][col + row * COLS] == was[col + row * COLS];
        cells[col + (row - 1) * COLS] := cells[col + row * COLS];
        col := col + 1;
      }
    }

    method Del()
      requires Fit()
      modifies this, cells
      ensures Fit() && View() == Console.Del(old(View()))
    {
      if x == 0 && y == 0 {
        return;
      }
      if x > 0 {
        x := x - 1;
      } else if y > 0 {
        y := y - 1;
        x := COLS - 1;
      }
      cells[x + y * COLS] := Cell(0, color);
    }

    /** The default case of a character: wrap now if the last one was left pending, write, step. */
    method Glyph(c: Byte)
      requires Fit()
      modifies this, cells
      ensures Fit() && View() == Console.Glyph(old(View()), c)
    {
      if x >= COLS {
        NewLine();
      }
      cells[x + y * COLS] := Cell(c, color);
      x := x + 1;
    }

    /** Four spaces. The character passed on always takes the default case. */
    method Tab()
      requires Fit()
      modifies this, cells
      ensures Fit() && View() == Spaces(old(View()), 4)
    {
      var i := 0;
      while i < 4
        invariant 0 <= i <= 4 && Fit()
        invariant View() == Spaces(old(View()), i)
      {
        Glyph(32);
        i := i + 1;
      }
    }

    method PutChar(c: Byte)
      requires Fit()
      modifies this, cells
      ensures Fit() && View() == Char(old(View()), c)
    {
      if c == 9 {
        Tab();
      } else if c == 13 {
        x := 0;
      } else if c == 10 {
        NewLine();
      } else if c == 8 || c == 127 {
        Del();
      } else {
        Glyph(c);
      }
    }

    /** `text` is the string up to its NUL: every character of it is an operation. */
    method PutString(text: seq<Byte>)
      requires Fit()
      modifies this, cells
      ensures Fit() && View() == Run(old(View()), Puts(text))
    {
      TypeIsRun(View(), text);
      var i := 0;
      while i < |text|
        invariant 0 <= i <= |text| && Fit()
        invariant Type(View(), text[i..]) == Type(old(View()), text)
      {
        assert text[i..][1..] == text[i + 1..];
        PutChar(text[i]);
        i := i + 1;
      }
    }
  }
}
