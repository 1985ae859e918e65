/** The VGA text console: an 80x25 buffer with deferred wrap, scrolling, tab and delete. */
module Console {
  import opened Common

  const COLS: nat := 80
  const ROWS: nat := 25
  const CELLS: nat := 2000

  datatype Cell = Cell(code: Byte, color: Byte)

  datatype Screen = Screen(cells: seq<Cell>, x: nat, y: nat, color: Byte)

  /** The cursor may stand one past the last column: the wrap is deferred. */
  predicate Ok(s: Screen) { |s.cells| == CELLS && s.x <= COLS && s.y < ROWS }

  function Blanks(n: nat, color: Byte): seq<Cell> { seq(n, _ => Cell(0, color)) }

  /** The cursor as one number; (80, y) and (0, y + 1) are the same place. */
  function Pos(s: Screen): nat { s.x + COLS * s.y }

  predicate Printable(c: Byte) { c != 9 && c != 10 && c != 13 && c != 8 && c != 127 }

  function NewLine(s: Screen): (s': Screen)
    requires Ok(s)
    ensures Ok(s')
  {
    if s.y < ROWS - 1 then s.(x := 0, y := s.y + 1)
    else s.(x := 0, cells := s.cells[COLS..] + Blanks(COLS, s.color))
  }

  function Glyph(s: Screen, c: Byte): (s': Screen)
    requires Ok(s)
    ensures Ok(s')
  {
    var s1 := if s.x >= COLS then NewLine(s) else s;
    s1.(cells := s1.cells[Pos(s1) := Cell(c, s.color)], x := s1.x + 1)
  }

  /** n spaces; a tab is four. */
  function Spaces(s: Screen, n: nat): (s': Screen)
    requires Ok(s)
    ensures Ok(s')
    decreases n
  {
    if n == 0 then s else Glyph(Spaces(s, n - 1), 32)
  }

  function Del(s: Screen): (s': Screen)
    requires Ok(s)
    ensures Ok(s')
  {
    if s.x == 0 && s.y == 0 then s else
      var s1 := if s.x > 0 then s.(x := s.x - 1) else s.(y := s.y - 1, x := COLS - 1);
      s1.(cells := s1.cells[Pos(s1) := Cell(0, s.color)])
  }

  function Char(s: Screen, c: Byte): (s': Screen)
    requires Ok(s)
    ensures Ok(s')
  {
    if c == 9 then Spaces(s, 4)
    else if c == 13 then s.(x := 0)
    else if c == 10 then NewLine(s)
    else if c == 8 || c == 127 then Del(s)
    else Glyph(s, c)
  }

  datatype Op = Put(c: Byte) | SetXY(x: nat, y: nat) | Color(color: Byte) | Clear

  function Do(s: Screen, op: Op): (s': Screen)
    requires Ok(s)
    ensures Ok(s')
  {
    match op
    case Put(c) => Char(s, c)
    case SetXY(x, y) => if x >= COLS || y >= ROWS then s else s.(x := x, y := y)
    case Color(color) => s.(color := color)
    case Clear => Screen(Blanks(CELLS, s.color), 0, 0, s.color)
  }

  // ---- typing and erasing -----------------------------------------------

  function Type(s: Screen, text: seq<Byte>): (s': Screen)
    requires Ok(s)
    ensures Ok(s')
    decreases |text|
  {
    if text == [] then s else Type(Char(s, text[0]), text[1..])
  }

  function Erase(s: Screen, n: nat): (s': Screen)
    requires Ok(s)
    ensures Ok(s')
    decreases n
  {
    if n == 0 then s else Erase(Del(s), n - 1)
  }

  function Glyphs(text: seq<Byte>, color: Byte): seq<Cell> {
    seq(|text|, i requires 0 <= i < |text| => Cell(text[i], color))
  }

  /** One printable character, not in the last place of all. */
  lemma GlyphLands(s: Screen, c: Byte)
    requires Ok(s) && Printable(c) && Pos(s) < CELLS
    ensures var s' := Char(s, c);
      Pos(s') == Pos(s) + 1 && s'.color == s.color && s'.cells == s.cells[Pos(s) := Cell(c, s.color)]
  {
  }

  /** Typing that does not scroll writes its characters from the cursor on, across rows,
      and leaves every other cell alone. */
  lemma {:induction false} TypeLaysOut(s: Screen, text: seq<Byte>)
    requires Ok(s) && (forall c :: c in text ==> Printable(c)) && Pos(s) + |text| <= CELLS
    ensures var s', p := Type(s, text), Pos(s);
      && Pos(s') == p + |text| && s'.color == s.color
      && s'.cells == s.cells[..p] + Glyphs(text, s.color) + s.cells[p + |text|..]
    decreases |text|
  {
    hide Char, Pos;
    if text == [] {
    } else {
      var s1, p := Char(s, text[0]), Pos(s);
      assert text[0] in text;
      GlyphLands(s, text[0]);
      TypeLaysOut(s1, text[1..]);
      assert Glyphs(text, s.color) == [Cell(text[0], s.color)] + Glyphs(text[1..], s.color);
      SpliceFront(s.cells, p, Cell(text[0], s.color), Glyphs(text[1..], s.color));
    }
  }

  lemma SpliceFront(cells: seq<Cell>, p: nat, c: Cell, mid: seq<Cell>)
    requires p + 1 + |mid| <= |cells|
    ensures var cells1 := cells[p := c];
      cells1[..p + 1] + mid + cells1[p + 1 + |mid|..] == cells[..p] + ([c] + mid) + cells[p + 1 + |mid|..]
  {
  }

  lemma SpliceBack(cells: seq<Cell>, p: nat, mid: seq<Cell>, c: Cell)
    requires p + |mid| < |cells|
    ensures var cells1 := cells[p + |mid| := c];
      cells1[..p] + mid + cells1[p + |mid|..] == cells[..p] + (mid + [c]) + cells[p + |mid| + 1..]
  {
  }

  lemma PosBound(s: Screen)
    requires Ok(s)
    ensures Pos(s) <= CELLS
  {
  }

  lemma DelStep(s: Screen)
    requires Ok(s) && Pos(s) > 0
    ensures var s' := Del(s);
      Pos(s') == Pos(s) - 1 && s'.color == s.color && Pos(s) <= CELLS && s'.cells == s.cells[Pos(s) - 1 := Cell(0, s.color)]
  {
  }

  lemma {:induction false} EraseBlanks(s: Screen, n: nat)
    requires Ok(s) && n <= Pos(s)
    ensures var s', p := Erase(s, n), Pos(s) - n;
      && Pos(s') == p && s'.color == s.color
      && s'.cells == s.cells[..p] + Blanks(n, s.color) + s.cells[p + n..]
    decreases n
  {
    hide Del, Pos;
    PosBound(s);
    if n == 0 {
    } else {
      var s1 := Del(s);
      DelStep(s);
      EraseBlanks(s1, n - 1);
      assert Blanks(n, s.color) == Blanks(n - 1, s.color) + [Cell(0, s.color)];
      SpliceBack(s.cells, Pos(s) - n, Blanks(n - 1, s.color), Cell(0, s.color));
    }
  }

  /** Characters followed by as many deletes return to the same place, despite the
      deferred wrap, and blank exactly the cells that were written. */
  lemma EraseUndoesType(s: Screen, text: seq<Byte>)
    requires Ok(s) && (forall c :: c in text ==> Printable(c)) && Pos(s) + |text| <= CELLS
    ensures var s', p := Erase(Type(s, text), |text|), Pos(s);
      && Pos(s') == p && s'.color == s.color
      && s'.cells == s.cells[..p] + Blanks(|text|, s.color) + s.cells[p + |text|..]
  {
    hide Type, Erase, Pos;
    TypeLaysOut(s, text);
    EraseBlanks(Type(s, text), |text|);
    Overwritten(s.cells, Pos(s), Glyphs(text, s.color));
  }

  lemma Overwritten(cells: seq<Cell>, p: nat, mid: seq<Cell>)
    requires p + |mid| <= |cells|
    ensures var now := cells[..p] + mid + cells[p + |mid|..];
      now[..p] == cells[..p] && now[p + |mid|..] == cells[p + |mid|..]
  {
  }

  // ---- the unbounded document -------------------------------------------

  /** All rows ever shown, as one text of `rows` rows; the screen is the last 25. */
  datatype Doc = Doc(text: seq<Cell>, rows: nat, x: nat, row: nat, color: Byte)

  predicate DocOk(d: Doc) {
    |d.text| == COLS * d.rows && d.rows >= ROWS && d.x <= COLS && d.rows - ROWS <= d.row < d.rows
  }

  /** The part of the document on the screen. */
  function Window(d: Doc): (s: Screen)
    requires DocOk(d)
    ensures Ok(s)
  {
    Screen(d.text[|d.text| - CELLS..], d.x, d.row - (d.rows - ROWS), d.color)
  }

  function DocNewLine(d: Doc): (d': Doc)
    requires DocOk(d)
    ensures DocOk(d')
  {
    if d.row + 1 < d.rows then d.(x := 0, row := d.row + 1)
    else d.(text := d.text + Blanks(COLS, d.color), rows := d.rows + 1, x := 0, row := d.row + 1)
  }

  function DocGlyph(d: Doc, c: Byte): (d': Doc)
    requires DocOk(d)
    ensures DocOk(d')
  {
    var d1 := if d.x >= COLS then DocNewLine(d) else d;
    d1.(text := d1.text[COLS * d1.row + d1.x := Cell(c, d.color)], x := d1.x + 1)
  }

  function DocSpaces(d: Doc, n: nat): (d': Doc)
    requires DocOk(d)
    ensures DocOk(d')
    decreases n
  {
    if n == 0 then d else DocGlyph(DocSpaces(d, n - 1), 32)
  }

  /** Deletion goes back over rows, but never above the top of the screen. */
  function DocDel(d: Doc): (d': Doc)
    requires DocOk(d)
    ensures DocOk(d')
  {
    if d.x == 0 && d.row == d.rows - ROWS then d else
      var d1 := if d.x > 0 then d.(x := d.x - 1) else d.(row := d.row - 1, x := COLS - 1);
      d1.(text := d1.text[COLS * d1.row + d1.x := Cell(0, d.color)])
  }

  function DocChar(d: Doc, c: Byte): (d': Doc)
    requires DocOk(d)
    ensures DocOk(d')
  {
    if c == 9 then DocSpaces(d, 4)
    else if c == 13 then d.(x := 0)
    else if c == 10 then DocNewLine(d)
    else if c == 8 || c == 127 then DocDel(d)
    else DocGlyph(d, c)
  }

  /** Clearing starts a fresh screenful below everything written so far. */
  function DocDo(d: Doc, op: Op): (d': Doc)
    requires DocOk(d)
    ensures DocOk(d')
  {
    match op
    case Put(c) => DocChar(d, c)
    case SetXY(x, y) => if x >= COLS || y >= ROWS then d else d.(x := x, row := d.rows - ROWS + y)
    case Color(color) => d.(color := color)
    case Clear => Doc(d.text + Blanks(CELLS, d.color), d.rows + ROWS, 0, d.rows, d.color)
  }

  lemma NewLineShows(d: Doc)
    requires DocOk(d)
    ensures Window(DocNewLine(d)) == NewLine(Window(d))
  {
    var d' := DocNewLine(d);
    assert Window(d').cells == NewLine(Window(d)).cells;
  }

  lemma WriteShows(d: Doc, cell: Cell)
    requires DocOk(d) && d.x < COLS
    ensures var i := COLS * d.row + d.x;
      Window(d.(text := d.text[i := cell])).cells == Window(d).cells[Pos(Window(d)) := cell]
  {
    var i := COLS * d.row + d.x;
    assert i - (|d.text| - CELLS) == Pos(Window(d));
  }

  lemma GlyphShows(d: Doc, c: Byte)
    requires DocOk(d)
    ensures Window(DocGlyph(d, c)) == Glyph(Window(d), c)
  {
    if d.x >= COLS {
      Wraps(d, c);
      NewLineShows(d);
      InRowShows(DocNewLine(d), c);
    } else {
      InRowShows(d, c);
    }
    hide *;
  }

  lemma Wraps(d: Doc, c: Byte)
    requires DocOk(d) && d.x >= COLS
    ensures DocGlyph(d, c) == DocGlyph(DocNewLine(d), c) && Glyph(Window(d), c) == Glyph(NewLine(Window(d)), c)
  {
  }

  lemma InRowShows(d: Doc, c: Byte)
    requires DocOk(d) && d.x < COLS
    ensures Window(DocGlyph(d, c)) == Glyph(Window(d), c)
  {
    WriteShows(d, Cell(c, d.color));
  }

  lemma {:induction false} SpacesShow(d: Doc, n: nat)
    requires DocOk(d)
    ensures Window(DocSpaces(d, n)) == Spaces(Window(d), n)
    decreases n
  {
    hide Window, Glyph, DocGlyph, Ok, DocOk;
    if n == 0 {
    } else {
      SpacesShow(d, n - 1);
      GlyphShows(DocSpaces(d, n - 1), 32);
    }
  }

  lemma DelShows(d: Doc)
    requires DocOk(d)
    ensures Window(DocDel(d)) == Del(Window(d))
  {
    if !(d.x == 0 && d.row == d.rows - ROWS) {
      BlankShows(if d.x > 0 then d.(x := d.x - 1) else d.(row := d.row - 1, x := COLS - 1));
    }
  }

  lemma BlankShows(d: Doc)
    requires DocOk(d) && d.x < COLS
    ensures var d' := d.(text := d.text[COLS * d.row + d.x := Cell(0, d.color)]);
      DocOk(d') && Window(d') == Window(d).(cells := Window(d).cells[Pos(Window(d)) := Cell(0, d.color)])
  {
    WriteShows(d, Cell(0, d.color));
  }

  /** The buffer is a window on the document: every operation commutes with it. */
  lemma DoShows(d: Doc, op: Op)
    requires DocOk(d)
    ensures Window(DocDo(d, op)) == Do(Window(d), op)
  {
    match op
    case Put(c) =>
      if c == 9 { SpacesShow(d, 4);
      } else if c == 10 { NewLineShows(d);
      } else if c == 8 || c == 127 { DelShows(d);
      } else if c != 13 { GlyphShows(d, c); }
    case Clear =>
      assert Window(DocDo(d, op)).cells == Blanks(CELLS, d.color);
    case _ =>
  }

  function Run(s: Screen, ops: seq<Op>): (s': Screen)
    requires Ok(s)
    ensures Ok(s')
    decreases |ops|
  {
    if ops == [] then s else Run(Do(s, ops[0]), ops[1..])
  }

  function DocRun(d: Doc, ops: seq<Op>): (d': Doc)
    requires DocOk(d)
    ensures DocOk(d')
    decreases |ops|
  {
    if ops == [] then d else DocRun(DocDo(d, ops[0]), ops[1..])
  }

  /** After any operations the 25 rows on the screen are the last 25 of the document that
      the same operations write. */
  lemma {:induction false} RunShows(d: Doc, ops: seq<Op>)
    requires DocOk(d)
    ensures Window(DocRun(d, ops)) == Run(Window(d), ops)
    decreases |ops|
  {
    if ops == [] {
    } else {
      DoShows(d, ops[0]);
      RunShows(DocDo(d, ops[0]), ops[1..]);
    }
  }

  /** From a clear screen, whatever was on it before. */
  lemma RunFromClear(s: Screen, ops: seq<Op>)
    requires Ok(s)
    ensures var d := Doc(Blanks(CELLS, s.color), ROWS, 0, 0, s.color);
      DocOk(d) && Window(DocRun(d, ops)) == Run(Do(s, Clear), ops)
  {
    var d := Doc(Blanks(CELLS, s.color), ROWS, 0, 0, s.color);
    assert Window(d).cells == Blanks(CELLS, s.color);
    RunShows(d, ops);
  }

  /** d' has all that d had scrolled off the top. */
  predicate Kept(d: Doc, d': Doc)
    requires DocOk(d) && DocOk(d')
  {
    d'.rows >= d.rows && var top := COLS * (d.rows - ROWS); d'.text[..top] == d.text[..top]
  }

  lemma KeptTrans(a: Doc, b: Doc, c: Doc)
    requires DocOk(a) && DocOk(b) && DocOk(c) && Kept(a, b) && Kept(b, c)
    ensures Kept(a, c)
  {
    var top := COLS * (a.rows - ROWS);
    assert c.text[..top] == c.text[..COLS * (b.rows - ROWS)][..top];
    assert b.text[..top] == b.text[..COLS * (b.rows - ROWS)][..top];
  }

  lemma GlyphKept(d: Doc, c: Byte)
    requires DocOk(d)
    ensures Kept(d, DocGlyph(d, c))
  {
  }

  lemma {:induction false} SpacesKept(d: Doc, n: nat)
    requires DocOk(d)
    ensures Kept(d, DocSpaces(d, n))
    decreases n
  {
    if n == 0 {
    } else {
      var d1 := DocSpaces(d, n - 1);
      SpacesKept(d, n - 1);
      GlyphKept(d1, 32);
      KeptTrans(d, d1, DocGlyph(d1, 32));
    }
  }

  lemma OneKept(d: Doc, op: Op)
    requires DocOk(d)
    ensures Kept(d, DocDo(d, op))
  {
    if op == Put(9) { SpacesKept(d, 4); } else if op.Put? && Printable(op.c) { GlyphKept(d, op.c); }
  }

  /** What has scrolled off the top never changes. */
  lemma {:induction false} ScrolledOffIsKept(d: Doc, ops: seq<Op>)
    requires DocOk(d)
    ensures Kept(d, DocRun(d, ops))
    decreases |ops|
  {
    if ops == [] {
    } else {
      OneKept(d, ops[0]);
      ScrolledOffIsKept(DocDo(d, ops[0]), ops[1..]);
      KeptTrans(d, DocDo(d, ops[0]), DocRun(d, ops));
    }
  }

  // ---- strings ------------------------------------------------------------

  /** The operations of a string: each of its characters, control characters too, in order. */
  function Puts(text: seq<Byte>): seq<Op> { seq(|text|, i requires 0 <= i < |text| => Put(text[i])) }

  lemma {:induction false} TypeIsRun(s: Screen, text: seq<Byte>)
    requires Ok(s)
    ensures Type(s, text) == Run(s, Puts(text))
    decreases |text|
  {
    if text == [] {
    } else {
      TypeIsRun(Char(s, text[0]), text[1..]);
      assert Puts(text)[1..] == Puts(text[1..]);
    }
  }

  /** Any text, whatever control characters are in it, is shown as the document has it. */
  lemma TypeShows(d: Doc, text: seq<Byte>)
    requires DocOk(d)
    ensures Window(DocRun(d, Puts(text))) == Type(Window(d), text)
  {
    TypeIsRun(Window(d), text);
    RunShows(d, Puts(text));
  }

  lemma {:induction false} TypeJoins(s: Screen, a: seq<Byte>, b: seq<Byte>)
    requires Ok(s)
    ensures Type(s, a + b) == Type(Type(s, a), b)
    decreases |a|
  {
    if a == [] {
      assert a + b == b;
    } else {
      assert (a + b)[1..] == a[1..] + b;
      TypeJoins(Char(s, a[0]), a[1..], b);
    }
  }

  /** A tab is four spaces; a carriage return goes to the start of the row, a line feed to the
      start of the next or, in the last, scrolls; neither writes a character. */
  lemma Controls(s: Screen)
    requires Ok(s)
    ensures Type(s, [9]) == Type(s, [32, 32, 32, 32])
    ensures var s' := Char(s, 13); Pos(s') == COLS * s.y && s'.cells == s.cells && s'.color == s.color
    ensures s.y < ROWS - 1 ==> var s' := Char(s, 10); Pos(s') == COLS * (s.y + 1) && s'.cells == s.cells
    ensures s.y == ROWS - 1 ==> var s' := Char(s, 10);
      && Pos(s') == COLS * s.y
      && forall i :: 0 <= i < CELLS ==>
           s'.cells[i] == if i + COLS < CELLS then s.cells[i + COLS] else Cell(0, s.color)
  {
    TabIsSpaces(s);
  }

  /** Both delete codes go one place back, over the start of a row too, and blank it. */
  lemma Deletes(s: Screen)
    requires Ok(s)
    ensures Char(s, 127) == Char(s, 8)
    ensures Pos(s) == 0 ==> Char(s, 8) == s
    ensures Pos(s) > 0 ==> var s' := Char(s, 8);
      Pos(s) <= CELLS && Pos(s') == Pos(s) - 1 && s'.cells == s.cells[Pos(s) - 1 := Cell(0, s.color)]
  {
    PosBound(s);
    if Pos(s) > 0 { DelStep(s); }
  }

  lemma TabIsSpaces(s: Screen)
    requires Ok(s)
    ensures Type(s, [9]) == Type(s, [32, 32, 32, 32])
  {
    hide Glyph, Type, Spaces;
    SpacesFour(s);
    TypeOne(s, 9);
    TypeTwo(s, 32, 32);
    TypeTwo(Glyph(Glyph(s, 32), 32), 32, 32);
    TypeJoins(s, [32, 32], [32, 32]);
    assert [32, 32] + [32, 32] == [32, 32, 32, 32];
  }

  lemma SpacesFour(s: Screen)
    requires Ok(s)
    ensures Spaces(s, 4) == Glyph(Glyph(Glyph(Glyph(s, 32), 32), 32), 32)
  {
    hide Glyph;
    assert Spaces(s, 2) == Glyph(Glyph(s, 32), 32);
  }

  lemma TypeTwo(s: Screen, a: Byte, b: Byte)
    requires Ok(s)
    ensures Type(s, [a, b]) == Char(Char(s, a), b)
  {
    hide Type, Char;
    assert [a, b] == [a] + [b];
    TypeJoins(s, [a], [b]);
    TypeOne(s, a);
    TypeOne(Char(s, a), b);
  }

  /** The next character lands where the cursor has been put, in the colour that has been set;
      positions off the screen are ignored. */
  lemma Lands(s: Screen, x: nat, y: nat, color: Byte, c: Byte)
    requires Ok(s) && Printable(c)
    ensures x < COLS && y < ROWS ==>
      Run(s, [SetXY(x, y), Color(color), Put(c)])
      == Screen(s.cells[x + COLS * y := Cell(c, color)], x + 1, y, color)
    ensures x >= COLS || y >= ROWS ==> Run(s, [SetXY(x, y)]) == s
  {
    var ops := [SetXY(x, y), Color(color), Put(c)];
    var s1 := Do(s, ops[0]);
    var s2 := Do(s1, ops[1]);
    assert ops[1..] == [Color(color), Put(c)] && ops[1..][1..] == [Put(c)] && ops[1..][1..][1..] == [];
    assert [SetXY(x, y)][1..] == [];
    hide Glyph;
    assert Run(s2, [Put(c)]) == Glyph(s2, c) by { assert [Put(c)][1..] == []; }
    if x < COLS && y < ROWS { LandsAt(s2, c); }
  }

  lemma LandsAt(s: Screen, c: Byte)
    requires Ok(s) && s.x < COLS
    ensures Glyph(s, c) == Screen(s.cells[s.x + COLS * s.y := Cell(c, s.color)], s.x + 1, s.y, s.color)
  {
  }

  // ---- a printed text -------------------------------------------------------

  /** A line that fits a row. */
  predicate Line(line: seq<Byte>) { |line| <= COLS && forall c :: c in line ==> Printable(c) }

  /** Lines with line feeds between them. */
  function Joined(lines: seq<seq<Byte>>): seq<Byte>
    requires lines != []
  {
    var k := |lines| - 1;
    if k == 0 then lines[0] else Joined(lines[..k]) + [10] + lines[k]
  }

  function CellAt(s: Screen, r: nat, i: nat): Cell
    requires Ok(s) && r < ROWS && i < COLS
  {
    s.cells[COLS * r + i]
  }

  /** How many of n lines have scrolled off. */
  function Above(n: nat): nat { if n > ROWS then n - ROWS else 0 }

  /** The line in row r of the screen. */
  function RowLine(lines: seq<seq<Byte>>, r: nat): seq<Byte> {
    if Above(|lines|) + r < |lines| then lines[Above(|lines|) + r] else []
  }

  predicate RowIs(s: Screen, r: nat, line: seq<Byte>)
    requires Ok(s) && r < ROWS
  {
    forall i :: 0 <= i < COLS ==> CellAt(s, r, i) == Cell(if i < |line| then line[i] else 0, s.color)
  }

  /** The screen shows the last 25 of these lines, blanks to their right and below, and the
      cursor is at the end of the last. */
  predicate Shown(s: Screen, lines: seq<seq<Byte>>)
    requires Ok(s) && lines != []
  {
    && s.x == |lines[|lines| - 1]| && s.y == |lines| - 1 - Above(|lines|)
    && forall r :: 0 <= r < ROWS ==> RowIs(s, r, RowLine(lines, r))
  }

  /** Printing any number of lines from a cleared screen, whatever was on it. */
  lemma {:induction false} Printed(s: Screen, lines: seq<seq<Byte>>)
    requires Ok(s) && lines != [] && forall l :: l in lines ==> Line(l)
    ensures Shown(Type(Do(s, Clear), Joined(lines)), lines)
    decreases |lines|
  {
    hide Shown, Char, NewLine, Do;
    var k, s0 := |lines| - 1, Do(s, Clear);
    assert lines[k] in lines;
    if k == 0 {
      Cleared(s);
      LineTyped(s0, [[]], lines[0]);
      assert [[]][0 := lines[0]] == lines;
    } else {
      var front, last := lines[..k], lines[k];
      Printed(s, front);
      var s1 := Type(s0, Joined(front));
      LineFed(s1, front);
      TypeJoins(s0, Joined(front) + [10], last);
      TypeJoins(s0, Joined(front), [10]);
      TypeOne(s1, 10);
      LineTyped(Char(s1, 10), front + [[]], last);
      assert (front + [[]])[k := last] == lines;
    }
  }

  lemma TypeOne(s: Screen, c: Byte)
    requires Ok(s)
    ensures Type(s, [c]) == Char(s, c)
  {
    assert [c][1..] == [];
  }

  lemma Cleared(s: Screen)
    requires Ok(s)
    ensures Shown(Do(s, Clear), [[]])
  {
    forall r | 0 <= r < ROWS ensures RowIs(Do(s, Clear), r, RowLine([[]], r)) {
      assert RowLine([[]], r) == [];
    }
  }

  lemma LineFed(s: Screen, lines: seq<seq<Byte>>)
    requires Ok(s) && lines != [] && Shown(s, lines)
    ensures Shown(Char(s, 10), lines + [[]])
  {
    assert Char(s, 10) == NewLine(s);
    var s', lines' := NewLine(s), lines + [[]];
    forall r | 0 <= r < ROWS ensures RowIs(s', r, RowLine(lines', r)) {
      if |lines| < ROWS {
        RowStays(s, lines, r);
      } else if r < ROWS - 1 {
        RowGoesUp(s, lines, r);
      } else {
        LastRowBlank(s, lines);
      }
    }
  }

  lemma RowStays(s: Screen, lines: seq<seq<Byte>>, r: nat)
    requires Ok(s) && lines != [] && Shown(s, lines) && r < ROWS && |lines| < ROWS
    ensures RowIs(NewLine(s), r, RowLine(lines + [[]], r))
  {
    assert RowIs(s, r, RowLine(lines, r)) && RowLine(lines + [[]], r) == RowLine(lines, r);
    forall i | 0 <= i < COLS ensures CellAt(NewLine(s), r, i) == CellAt(s, r, i) { }
  }

  lemma RowGoesUp(s: Screen, lines: seq<seq<Byte>>, r: nat)
    requires Ok(s) && lines != [] && Shown(s, lines) && r < ROWS - 1 && |lines| >= ROWS
    ensures RowIs(NewLine(s), r, RowLine(lines + [[]], r))
  {
    assert s.y == ROWS - 1;
    assert RowIs(s, r + 1, RowLine(lines, r + 1)) && RowLine(lines + [[]], r) == RowLine(lines, r + 1);
    forall i | 0 <= i < COLS ensures CellAt(NewLine(s), r, i) == CellAt(s, r + 1, i) { ScrolledCell(s, r, i); }
  }

  lemma LastRowBlank(s: Screen, lines: seq<seq<Byte>>)
    requires Ok(s) && lines != [] && Shown(s, lines) && |lines| >= ROWS
    ensures RowIs(NewLine(s), ROWS - 1, RowLine(lines + [[]], ROWS - 1))
  {
    var r := ROWS - 1;
    assert s.y == r && RowLine(lines + [[]], r) == [];
    forall i | 0 <= i < COLS ensures CellAt(NewLine(s), r, i) == Cell(0, s.color) { ScrolledCell(s, r, i); }
  }

  lemma ScrolledCell(s: Screen, r: nat, i: nat)
    requires Ok(s) && s.y == ROWS - 1 && r < ROWS && i < COLS
    ensures CellAt(NewLine(s), r, i) == if r < ROWS - 1 then CellAt(s, r + 1, i) else Cell(0, s.color)
  {
  }

  lemma {:induction false} TypeInRow(s: Screen, text: seq<Byte>)
    requires Ok(s) && (forall c :: c in text ==> Printable(c)) && s.x + |text| <= COLS
    ensures Type(s, text).x == s.x + |text| && Type(s, text).y == s.y
    decreases |text|
  {
    if text == [] {
    } else {
      assert text[0] in text;
      TypeInRow(Char(s, text[0]), text[1..]);
    }
  }

  lemma LineTyped(s: Screen, lines: seq<seq<Byte>>, line: seq<Byte>)
    requires Ok(s) && lines != [] && Shown(s, lines) && lines[|lines| - 1] == [] && Line(line)
    ensures Shown(Type(s, line), lines[|lines| - 1 := line])
  {
    TypeInRow(s, line);
    var lines' := lines[|lines| - 1 := line];
    forall r | 0 <= r < ROWS ensures RowIs(Type(s, line), r, RowLine(lines', r)) {
      assert RowIs(s, r, RowLine(lines, r));
      assert RowLine(lines', r) == if r == s.y then line else RowLine(lines, r);
      assert r == s.y ==> RowLine(lines, r) == [];
      RowTyped(s, line, r, RowLine(lines, r));
    }
    hide Type, RowIs;
  }

  lemma RowTyped(s: Screen, line: seq<Byte>, r: nat, was: seq<Byte>)
    requires Ok(s) && Line(line) && s.x == 0 && r < ROWS && RowIs(s, r, was) && (r == s.y ==> was == [])
    ensures RowIs(Type(s, line), r, if r == s.y then line else was)
  {
    TypeLaysOut(s, line);
    var s' := Type(s, line);
    hide Type;
    forall i | 0 <= i < COLS
      ensures CellAt(s', r, i) == if r == s.y && i < |line| then Cell(line[i], s.color) else CellAt(s, r, i)
    {
      CellTyped(s, s', line, r, i);
    }
  }

  lemma CellTyped(s: Screen, s': Screen, line: seq<Byte>, r: nat, i: nat)
    requires Ok(s) && Ok(s') && r < ROWS && i < COLS && |line| <= COLS && s.x == 0 && s'.color == s.color
    requires var p := COLS * s.y;
      p + |line| <= CELLS && s'.cells == s.cells[..p] + Glyphs(line, s.color) + s.cells[p + |line|..]
    ensures CellAt(s', r, i) == if r == s.y && i < |line| then Cell(line[i], s.color) else CellAt(s, r, i)
  {
  }
}
