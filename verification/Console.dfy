/** The text console (vga.c:8-60, 80-120): a cursor and an in-place scroll,
    against a page of text that only ever grows. */
module Console {

  const WIDTH: nat := 80
  const HEIGHT: nat := 50

  const NEWLINE: nat := 10
  const RETURN: nat := 13
  const BACKSPACE: nat := 8
  const TAB: nat := 9
  const SPACE: nat := 32

  function Repeat(v: nat): (r: seq<nat>)
    ensures |r| == WIDTH && forall x | 0 <= x < WIDTH :: r[x] == v
  {
    seq(WIDTH, _ => v)
  }

  type Row = r: seq<nat> | |r| == WIDTH witness Repeat(0)

  /** The cells of the screen, row by row. */
  type Screen = s: seq<nat> | |s| == WIDTH * HEIGHT witness seq(WIDTH * HEIGHT, _ => 0)

  function RowOf(s: Screen, y: nat): Row
    requires y < HEIGHT
  {
    s[WIDTH * y..WIDTH * y + WIDTH]
  }

  function SetRow(s: Screen, y: nat, r: Row): (t: Screen)
    requires y < HEIGHT
    ensures forall k | 0 <= k < HEIGHT :: RowOf(t, k) == if k == y then r else RowOf(s, k)
  {
    var t := s[..WIDTH * y] + r + s[WIDTH * y + WIDTH..];
    SpliceRows(s, y, r, t);
    t
  }

  lemma SpliceRows(s: Screen, y: nat, r: Row, t: Screen)
    requires y < HEIGHT && t == s[..WIDTH * y] + r + s[WIDTH * y + WIDTH..]
    ensures forall k | 0 <= k < HEIGHT :: RowOf(t, k) == if k == y then r else RowOf(s, k)
  {
    forall k | 0 <= k < HEIGHT
      ensures RowOf(t, k) == if k == y then r else RowOf(s, k)
    {
      if k < y {
        assert WIDTH * k + WIDTH <= WIDTH * y;
      } else if k > y {
        assert WIDTH * y + WIDTH <= WIDTH * k;
      }
    }
  }

  // ---- the page

  /** Text without scrolling: a new row is added below when the cursor leaves
      the last one. The last HEIGHT rows are visible. */
  datatype Page = Page(rows: seq<Row>, row: nat, col: nat)

  predicate PageOk(p: Page) {
    |p.rows| >= HEIGHT && Top(p) <= p.row < |p.rows| && p.col <= WIDTH
  }

  function Top(p: Page): int { |p.rows| - HEIGHT }

  function Visible(p: Page, y: nat): Row
    requires PageOk(p) && y < HEIGHT
  {
    p.rows[Top(p) + y]
  }

  /** A character below 256 or-ed into a colour, whose low byte is zero. */
  function Cell(ch: nat, color: nat): nat { ch + color }

  function NextLine(p: Page, color: nat): (q: Page)
    requires PageOk(p)
    ensures PageOk(q)
  {
    Page(if p.row < |p.rows| - 1 then p.rows else p.rows + [Repeat(Cell(SPACE, color))], p.row + 1, 0)
  }

  function Wrapped(p: Page, color: nat): (q: Page)
    requires PageOk(p)
    ensures PageOk(q) && q.col < WIDTH
  {
    if p.col >= WIDTH then NextLine(p, color) else p
  }

  function Put(p: Page, v: nat): (q: Page)
    requires PageOk(p) && p.col < WIDTH
    ensures PageOk(q)
  {
    p.(rows := p.rows[p.row := p.rows[p.row][p.col := v]])
  }

  function PutNext(p: Page, v: nat): (q: Page)
    requires PageOk(p) && p.col < WIDTH
    ensures PageOk(q)
  {
    Put(p, v).(col := p.col + 1)
  }

  /** Back by one cell, also into the row above unless that is not visible. */
  function Back(p: Page, color: nat): (q: Page)
    requires PageOk(p)
    ensures PageOk(q)
  {
    var m := if p.col == 0 && p.row > Top(p) then p.(row := p.row - 1, col := WIDTH) else p;
    if m.col > 0 then Put(m.(col := m.col - 1), Cell(SPACE, color)) else m
  }

  function Blanks(p: Page, n: nat, color: nat): (q: Page)
    requires PageOk(p)
    ensures PageOk(q)
    decreases n
  {
    if n == 0 || p.col >= WIDTH then p else Blanks(PutNext(p, Cell(SPACE, color)), n - 1, color)
  }

  function Step(p: Page, ch: nat, color: nat): (q: Page)
    requires PageOk(p)
    ensures PageOk(q)
  {
    if ch == NEWLINE then NextLine(p, color)
    else if ch == RETURN then p.(col := 0)
    else if ch == BACKSPACE then Back(p, color)
    else if ch == TAB then var w := Wrapped(p, color); Blanks(w, 4 - w.col % 4, color)
    else PutNext(Wrapped(p, color), Cell(ch, color))
  }

  function Printed(p: Page, text: seq<nat>, color: nat): (q: Page)
    requires PageOk(p)
    ensures PageOk(q)
    decreases |text|
  {
    if text == [] then p else Printed(Step(p, text[0], color), text[1..], color)
  }

  /** The screen is the window on the last rows of the page. */
  predicate Shows(s: Screen, line: int, column: int, p: Page)
    requires PageOk(p)
  {
    line == p.row - Top(p) && column == p.col && forall y | 0 <= y < HEIGHT :: RowOf(s, y) == Visible(p, y)
  }

  // ---- what the page means

  /** Plain characters. */
  predicate Plain(text: seq<nat>) {
    forall k | 0 <= k < |text| :: text[k] != NEWLINE && text[k] != RETURN && text[k] != BACKSPACE && text[k] != TAB
  }

  /** Position of the cursor, and the cell at a position, counted along the text. */
  function Position(p: Page): nat { WIDTH * p.row + p.col }

  function CellAt(p: Page, k: nat): nat { if k / WIDTH < |p.rows| then p.rows[k / WIDTH][k % WIDTH] else 0 }

  lemma PlainStep(p: Page, ch: nat, color: nat)
    requires PageOk(p) && Plain([ch])
    ensures var q := Step(p, ch, color);
      && Position(q) == Position(p) + 1 && |q.rows| >= |p.rows| && Position(p) / WIDTH < |q.rows|
      && CellAt(q, Position(p)) == Cell(ch, color)
      && forall k | 0 <= k < WIDTH * |p.rows| && k != Position(p) :: CellAt(q, k) == CellAt(p, k)
  {
    assert [ch][0] == ch;
    var w := Wrapped(p, color);
    assert Position(w) == Position(p);
    assert Position(w) / WIDTH == w.row && Position(w) % WIDTH == w.col;
    forall k | 0 <= k < WIDTH * |p.rows| && k != Position(p)
      ensures CellAt(Step(p, ch, color), k) == CellAt(p, k)
    {
      assert k == WIDTH * (k / WIDTH) + k % WIDTH;
    }
  }

  /** Plain text fills consecutive cells, whatever rows it wraps around, and
      nothing before it changes. */
  lemma {:induction false} PlainText(p: Page, text: seq<nat>, color: nat)
    requires PageOk(p) && Plain(text)
    ensures var q := Printed(p, text, color);
      && Position(q) == Position(p) + |text| && |q.rows| >= |p.rows|
      && (forall i | 0 <= i < |text| :: CellAt(q, Position(p) + i) == Cell(text[i], color))
      && forall k | 0 <= k < Position(p) :: CellAt(q, k) == CellAt(p, k)
    decreases |text|
  {
    assert PageOk(p) ==> Position(p) <= WIDTH * |p.rows|;
    if text != [] {
      var m, q := Step(p, text[0], color), Printed(p, text, color);
      PlainStep(p, text[0], color);
      PlainText(m, text[1..], color);
      hide Step, Printed, CellAt;
      forall i | 0 <= i < |text|
        ensures CellAt(q, Position(p) + i) == Cell(text[i], color)
      {
        if i > 0 {
          assert Position(m) + (i - 1) == Position(p) + i && text[1..][i - 1] == text[i];
        }
      }
    }
  }

  /** Rows above the window are never touched again. */
  lemma StepKeepsHistory(p: Page, ch: nat, color: nat)
    requires PageOk(p)
    ensures var q := Step(p, ch, color); |q.rows| >= |p.rows| && forall k | 0 <= k < Top(p) :: q.rows[k] == p.rows[k]
  {
    if ch == TAB {
      var w := Wrapped(p, color);
      BlanksKeepHistory(w, 4 - w.col % 4, color);
    }
  }

  lemma {:induction false} BlanksKeepHistory(p: Page, n: nat, color: nat)
    requires PageOk(p)
    ensures var q := Blanks(p, n, color); |q.rows| == |p.rows| && forall k | 0 <= k < Top(p) :: q.rows[k] == p.rows[k]
    decreases n
  {
    if n > 0 && p.col < WIDTH {
      BlanksKeepHistory(PutNext(p, Cell(SPACE, color)), n - 1, color);
    }
  }

  lemma {:induction false} PrintKeepsHistory(p: Page, text: seq<nat>, color: nat)
    requires PageOk(p)
    ensures var q := Printed(p, text, color);
      |q.rows| >= |p.rows| && forall k | 0 <= k < Top(p) :: q.rows[k] == p.rows[k]
    decreases |text|
  {
    if text != [] {
      StepKeepsHistory(p, text[0], color);
      PrintKeepsHistory(Step(p, text[0], color), text[1..], color);
      hide Step;
    }
  }

  /** A backspace after a plain character blanks its cell and puts the cursor
      back. */
  lemma BackAfterPut(p: Page, ch: nat, color: nat)
    requires PageOk(p) && p.col < WIDTH && Plain([ch])
    ensures Back(Step(p, ch, color), color) == Put(p, Cell(SPACE, color))
  {
    assert [ch][0] == ch;
    var q := Step(p, ch, color);
    var blank := Cell(SPACE, color);
    assert q.rows[p.row] == p.rows[p.row][p.col := Cell(ch, color)];
    assert q.rows[p.row][p.col := blank] == p.rows[p.row][p.col := blank];
    assert q.rows[p.row := q.rows[p.row][p.col := blank]] == p.rows[p.row := p.rows[p.row][p.col := blank]];
  }

  // ---- the code

  class Vga {
    const vga: array<nat>
    var line: nat
    var column: nat
    var currColor: nat

    constructor ()
      ensures Wired() && fresh(vga) && line == 0 && column == 0
    {
      vga := new nat[WIDTH * HEIGHT](_ => 0);
      line := 0;
      column := 0;
      currColor := 0x700;
    }

    predicate Wired() { vga.Length == WIDTH * HEIGHT }

    function Cells(): Screen
      requires Wired()
      reads vga
    {
      vga[..]
    }

    /** The state is what the page p shows. */
    predicate Displays(p: Page)
      requires PageOk(p)
      reads this, vga
    {
      Wired() && currColor % 256 == 0 && Shows(Cells(), line, column, p)
    }

    static function BlankPage(color: nat): (p: Page)
      ensures PageOk(p)
    {
      Page(seq(HEIGHT, _ => Repeat(Cell(SPACE, color))), 0, 0)
    }

    /** set_color: only the look of the cells stored from now on changes. */
    method SetColor(fg: nat, bg: nat, ghost p: Page)
      requires PageOk(p) && Displays(p)
      modifies this`currColor
      ensures Displays(p) && currColor == bg % 16 * 0x1000 + fg % 16 * 0x100
    {
      currColor := bg % 16 * 0x1000 + fg % 16 * 0x100;
      hide Shows;
    }

    method Reset()
      requires Wired() && currColor % 256 == 0
      modifies this`line, this`column, vga
      ensures Displays(BlankPage(currColor))
      ensures line == 0 && column == 0 && forall k | 0 <= k < 4000 :: vga[k] == 32 + currColor
    {
      var blankCell := Cell(SPACE, currColor);
      var totalCells := WIDTH * HEIGHT;
      var i := 0;
      while i < totalCells
        invariant 0 <= i <= totalCells && forall k | 0 <= k < i :: vga[k] == blankCell
      {
        vga[i] := blankCell;
        i := i + 1;
      }
      column := 0;
      line := 0;
    }

    /** One round of the copy loop: row y moves up. */
    method CopyRow(y: nat)
      requires Wired() && 1 <= y < HEIGHT
      modifies vga
      ensures Cells() == SetRow(old(Cells()), y - 1, RowOf(old(Cells()), y))
    {
      ghost var before, r := Cells(), RowOf(Cells(), y);
      var x := 0;
      while x < WIDTH
        invariant 0 <= x <= WIDTH
        invariant forall k | 0 <= k < WIDTH * HEIGHT ::
          vga[k] == if WIDTH * (y - 1) <= k < WIDTH * (y - 1) + x then r[k - WIDTH * (y - 1)] else before[k]
      {
        assert r[x] == before[y * WIDTH + x];
        vga[(y - 1) * WIDTH + x] := vga[y * WIDTH + x];
        x := x + 1;
      }
      RowReplaced(before, y - 1, r, vga[..]);
    }

    static lemma RowReplaced(s: Screen, y: nat, r: Row, t: Screen)
      requires y < HEIGHT
      requires forall k | 0 <= k < WIDTH * HEIGHT ::
        t[k] == if WIDTH * y <= k < WIDTH * y + WIDTH then r[k - WIDTH * y] else s[k]
      ensures t == SetRow(s, y, r)
    {
    }

    method ScrollUp()
      requires Wired()
      modifies vga
      ensures forall y | 0 <= y < HEIGHT ::
        RowOf(Cells(), y) == if y < HEIGHT - 1 then RowOf(old(Cells()), y + 1) else Repeat(Cell(SPACE, currColor))
    {
      hide RowOf, SetRow;
      ghost var before := Cells();
      var y := 1;
      while y < HEIGHT
        invariant 1 <= y <= HEIGHT
        invariant forall k | 0 <= k < y - 1 :: RowOf(Cells(), k) == RowOf(before, k + 1)
        invariant forall k | y - 1 <= k < HEIGHT :: RowOf(Cells(), k) == RowOf(before, k)
      {
        ghost var mid := Cells();
        CopyRow(y);
        assert RowOf(mid, y) == RowOf(before, y - 1 + 1);
        assert forall k | 0 <= k < HEIGHT && k != y - 1 :: RowOf(Cells(), k) == RowOf(mid, k);
        y := y + 1;
      }
      ClearLastRow();
    }

    method ClearLastRow()
      requires Wired()
      modifies vga
      ensures Cells() == SetRow(old(Cells()), HEIGHT - 1, Repeat(Cell(SPACE, currColor)))
    {
      ghost var before := Cells();
      var x := 0;
      while x < WIDTH
        invariant 0 <= x <= WIDTH
        invariant forall k | 0 <= k < WIDTH * HEIGHT ::
          vga[k] == if WIDTH * (HEIGHT - 1) <= k < WIDTH * (HEIGHT - 1) + x then Cell(SPACE, currColor) else before[k]
      {
        vga[(HEIGHT - 1) * WIDTH + x] := Cell(SPACE, currColor);
        x := x + 1;
      }
      RowReplaced(before, HEIGHT - 1, Repeat(Cell(SPACE, currColor)), vga[..]);
    }

    method NewLine(ghost p: Page)
      requires PageOk(p) && Displays(p)
      modifies this`line, this`column, vga
      ensures Displays(NextLine(p, currColor))
    {
      hide RowOf, SetRow;
      if line < HEIGHT - 1 {
        line := line + 1;
        column := 0;
      } else {
        ScrollUp();
        column := 0;
      }
    }

    /** Storing a cell at the cursor. */
    method Store(v: nat, ghost p: Page)
      requires PageOk(p) && p.col < WIDTH && Displays(p)
      modifies vga
      ensures Displays(Put(p, v))
    {
      ghost var before := Cells();
      var y, x := line, column;
      assert y * WIDTH + x < WIDTH * HEIGHT;
      vga[y * WIDTH + x] := v;
      RowReplaced(before, y, RowOf(before, y)[x := v], vga[..]);
      hide RowOf, SetRow;
    }

    method Backspace(ghost p: Page)
      requires PageOk(p) && Displays(p)
      modifies this`line, this`column, vga
      ensures Displays(Back(p, currColor))
    {
      hide RowOf;
      ghost var m := if p.col == 0 && p.row > Top(p) then p.(row := p.row - 1, col := WIDTH) else p;
      if column == 0 && line != 0 {
        line := line - 1;
        column := WIDTH;
      }
      assert Displays(m);
      if column > 0 {
        column := column - 1;
        Store(Cell(SPACE, currColor), m.(col := m.col - 1));
      }
    }

    method Tabulate(ghost p: Page)
      requires PageOk(p) && Displays(p)
      modifies this`line, this`column, vga
      ensures Displays(Step(p, TAB, currColor))
    {
      hide RowOf, Shows;
      Cursor(p);
      if column >= WIDTH {
        NewLine(p);
      }
      ghost var w := Wrapped(p, currColor);
      Cursor(w);
      var tabLen: nat := 4 - column % 4;
      while tabLen != 0 && column < WIDTH
        invariant PageOk(w) && Displays(w) && column == w.col
        invariant Blanks(w, tabLen, currColor) == Step(p, TAB, currColor)
        decreases tabLen
      {
        Store(Cell(SPACE, currColor), w);
        Advance(Put(w, Cell(SPACE, currColor)));
        w := PutNext(w, Cell(SPACE, currColor));
        Cursor(w);
        tabLen := tabLen - 1;
      }
    }

    lemma Cursor(p: Page)
      requires PageOk(p) && Displays(p)
      ensures line < HEIGHT && column <= WIDTH && column == p.col
    {
    }

    method Advance(ghost p: Page)
      requires PageOk(p) && p.col < WIDTH && Displays(p)
      modifies this`column
      ensures PageOk(p.(col := p.col + 1)) && Displays(p.(col := p.col + 1))
    {
      hide RowOf;
      column := column + 1;
    }

    /** The switch of print. */
    method PrintChar(ch: nat, ghost p: Page)
      requires PageOk(p) && Displays(p)
      modifies this`line, this`column, vga
      ensures Displays(Step(p, ch, currColor))
    {
      hide RowOf;
      if ch == NEWLINE {
        NewLine(p);
      } else if ch == RETURN {
        column := 0;
      } else if ch == BACKSPACE {
        Backspace(p);
      } else if ch == TAB {
        Tabulate(p);
      } else {
        if column >= WIDTH {
          NewLine(p);
        }
        ghost var w := Wrapped(p, currColor);
        Store(Cell(ch, currColor), w);
        column := column + 1;
      }
    }

    /** print, on the characters before the terminator. */
    method Print(text: seq<nat>, ghost p: Page)
      requires PageOk(p) && Displays(p)
      modifies this`line, this`column, vga
      ensures Displays(Printed(p, text, currColor)) && line < HEIGHT && column <= WIDTH
    {
      hide Shows, Step, RowOf;
      ghost var q := p;
      var k := 0;
      while k < |text|
        invariant 0 <= k <= |text| && PageOk(q) && Displays(q)
        invariant Printed(p, text, currColor) == Printed(q, text[k..], currColor)
      {
        PrintChar(text[k], q);
        q := Step(q, text[k], currColor);
        assert text[k..][1..] == text[k + 1..];
        k := k + 1;
      }
      Cursor(q);
    }
  }
}
