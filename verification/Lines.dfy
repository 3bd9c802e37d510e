/** What newlines, returns, backspaces and tabs do (vga.c:31-39, 83-109), and
    where the lines of a text come to lie. */
module Lines {
  import opened Console

  // ---- one control character

  lemma AtPosition(p: Page, k: nat)
    ensures k / 80 < |p.rows| ==> CellAt(p, k) == p.rows[k / 80][k % 80]
    ensures k < 80 * |p.rows| <==> k / 80 < |p.rows|
  {
  }

  /** A newline puts the cursor at the start of the next row. No cell changes;
      below the last row a row of blanks is added. */
  lemma NewlineIs(p: Page, color: nat)
    requires PageOk(p)
    ensures var q := Step(p, 10, color);
      && q.row == p.row + 1 && q.col == 0 && Position(q) == 80 * (p.row + 1)
      && |q.rows| == (if p.row + 1 == |p.rows| then |p.rows| + 1 else |p.rows|)
      && (forall k: nat | k < 80 * |p.rows| :: CellAt(q, k) == CellAt(p, k))
      && forall k: nat | 80 * |p.rows| <= k < 80 * |q.rows| :: CellAt(q, k) == Cell(32, color)
  {
    var q := Step(p, 10, color);
    forall k: nat | k < 80 * |p.rows|
      ensures CellAt(q, k) == CellAt(p, k)
    {
      AtPosition(p, k);
    }
    forall k: nat | 80 * |p.rows| <= k < 80 * |q.rows|
      ensures CellAt(q, k) == Cell(32, color)
    {
      assert k / 80 == |p.rows|;
    }
  }

  /** A return puts the cursor at the start of its row. No cell changes. */
  lemma ReturnIs(p: Page, color: nat)
    requires PageOk(p)
    ensures var q := Step(p, 13, color);
      q.row == p.row && q.col == 0 && Position(q) == 80 * p.row && q.rows == p.rows
  {
  }

  lemma PutAt(p: Page, v: nat)
    requires PageOk(p) && p.col < 80
    ensures var q := Put(p, v);
      && q.row == p.row && q.col == p.col && |q.rows| == |p.rows| && CellAt(q, Position(p)) == v
      && Position(p) < 80 * |p.rows|
      && forall k: nat | k < 80 * |p.rows| && k != Position(p) :: CellAt(q, k) == CellAt(p, k)
  {
    var q := Put(p, v);
    assert Position(p) / 80 == p.row && Position(p) % 80 == p.col;
    forall k: nat | k < 80 * |p.rows| && k != Position(p)
      ensures CellAt(q, k) == CellAt(p, k)
    {
      assert k == 80 * (k / 80) + k % 80;
    }
  }

  /** A backspace takes the cursor one cell back, also into the row above, and
      blanks that cell and no other. At the first visible cell it does nothing. */
  lemma BackspaceIs(p: Page, color: nat)
    requires PageOk(p)
    ensures var q := Step(p, 8, color);
      if Position(p) == 80 * (|p.rows| - 50) then q == p
      else
        && Position(q) == Position(p) - 1 && q.col < 80 && |q.rows| == |p.rows|
        && CellAt(q, Position(q)) == Cell(32, color)
        && forall k: nat | k < 80 * |p.rows| && k != Position(q) :: CellAt(q, k) == CellAt(p, k)
  {
    var m := if p.col == 0 && p.row > Top(p) then p.(row := p.row - 1, col := 80) else p;
    if m.col > 0 {
      PutAt(m.(col := m.col - 1), Cell(32, color));
    }
  }

  lemma {:induction false} BlanksAre(p: Page, n: nat, color: nat)
    requires PageOk(p) && p.col + n <= 80
    ensures var q := Blanks(p, n, color);
      && q.row == p.row && q.col == p.col + n && |q.rows| == |p.rows|
      && (forall k: nat | Position(p) <= k < Position(p) + n :: CellAt(q, k) == Cell(32, color))
      && forall k: nat | k < 80 * |p.rows| && !(Position(p) <= k < Position(p) + n) :: CellAt(q, k) == CellAt(p, k)
    decreases n
  {
    if n > 0 {
      PutAt(p, Cell(32, color));
      BlanksAre(PutNext(p, Cell(32, color)), n - 1, color);
      hide CellAt, Put;
    }
  }

  lemma WrappedIs(p: Page, color: nat)
    requires PageOk(p)
    ensures var w := Wrapped(p, color);
      && Position(w) == Position(p) && w.col < 80 && |w.rows| >= |p.rows|
      && forall k: nat | k < 80 * |p.rows| :: CellAt(w, k) == CellAt(p, k)
  {
    if p.col >= 80 {
      NewlineIs(p, color);
    }
    hide CellAt;
  }

  /** A tab takes the cursor to the next multiple of four, blanks what it passes
      and changes no other cell. */
  lemma TabIs(p: Page, color: nat)
    requires PageOk(p)
    ensures var q := Step(p, 9, color); var stop := Position(p) / 4 * 4 + 4;
      && Position(q) == stop && 0 < q.col <= 80 && |q.rows| >= |p.rows|
      && (forall k: nat | Position(p) <= k < stop :: CellAt(q, k) == Cell(32, color))
      && forall k: nat | k < 80 * |p.rows| && !(Position(p) <= k < stop) :: CellAt(q, k) == CellAt(p, k)
  {
    var w := Wrapped(p, color);
    WrappedIs(p, color);
    assert Position(w) % 4 == w.col % 4;
    BlanksAre(w, 4 - w.col % 4, color);
    hide CellAt, Blanks, Wrapped;
  }

  /** A character below 256 and a colour share a cell. */
  lemma CellIs(ch: nat, color: nat)
    requires ch < 256 && color % 256 == 0
    ensures Cell(ch, color) % 256 == ch && Cell(ch, color) / 256 == color / 256
  {
  }

  // ---- lines

  lemma {:induction false} PlainCursor(p: Page, text: seq<nat>, color: nat)
    requires PageOk(p) && Plain(text) && text != []
    ensures 0 < Printed(p, text, color).col
    decreases |text|
  {
    PlainOne(p, text, color);
    if |text| > 1 {
      PlainCursor(Step(p, text[0], color), text[1..], color);
    }
  }

  lemma PlainOne(p: Page, text: seq<nat>, color: nat)
    requires PageOk(p) && Plain(text) && text != []
    ensures Step(p, text[0], color).col > 0
    ensures Printed(p, text, color) == Printed(Step(p, text[0], color), text[1..], color)
    ensures Plain(text[1..]) && (text[1..] == [] ==> Printed(p, text, color) == Step(p, text[0], color))
  {
    hide Wrapped;
  }

  /** How many rows a line of n characters takes. */
  function RowsFor(n: nat): nat { if n <= 80 then 1 else 1 + RowsFor(n - 80) }

  lemma {:induction false} RowsForIs(n: nat)
    ensures n <= 80 * RowsFor(n) && (n > 80 || RowsFor(n) > 1 ==> 80 * (RowsFor(n) - 1) < n) && RowsFor(n) >= 1
  {
    if n > 80 {
      RowsForIs(n - 80);
    }
  }

  /** A line of plain text from the start of a row on: it lies in its own rows,
      and the cursor is in the last of them. */
  lemma LineIs(p: Page, text: seq<nat>, color: nat)
    requires PageOk(p) && p.col == 0 && Plain(text)
    ensures var q := Printed(p, text, color);
      && q.row == p.row + RowsFor(|text|) - 1 && |q.rows| >= |p.rows|
      && (forall i: nat | i < |text| :: CellAt(q, 80 * p.row + i) == Cell(text[i], color))
      && forall k: nat | k < 80 * p.row :: CellAt(q, k) == CellAt(p, k)
  {
    PlainText(p, text, color);
    RowsForIs(|text|);
    if text != [] {
      PlainCursor(p, text, color);
    }
    hide Printed, CellAt, RowsFor, Plain;
    var q := Printed(p, text, color);
    assert 80 * q.row + q.col == 80 * p.row + |text| && q.col <= 80;
    assert forall i: nat | i < |text| :: CellAt(q, Position(p) + i) == Cell(text[i], color);
  }

  lemma {:induction false} PrintedAppend(p: Page, a: seq<nat>, b: seq<nat>, color: nat)
    requires PageOk(p)
    ensures Printed(p, a + b, color) == Printed(Printed(p, a, color), b, color)
    decreases |a|
  {
    hide Step;
    if a == [] {
      assert a + b == b;
    } else {
      assert (a + b)[0] == a[0] && (a + b)[1..] == a[1..] + b;
      PrintedAppend(Step(p, a[0], color), a[1..], b, color);
    }
  }

  /** What ends a line: a newline, or a return and a newline. */
  function LineEnd(cr: bool): seq<nat> { if cr then [13, 10] else [10] }

  lemma LineEndIs(p: Page, cr: bool, color: nat)
    requires PageOk(p)
    ensures var q := Printed(p, LineEnd(cr), color);
      && q.row == p.row + 1 && q.col == 0 && |q.rows| >= |p.rows|
      && forall k: nat | k < 80 * |p.rows| :: CellAt(q, k) == CellAt(p, k)
  {
    NewlineIs(p, color);
    if cr {
      ReturnIs(p, color);
      var m := Step(p, 13, color);
      NewlineIs(m, color);
      assert LineEnd(cr)[1..] == [10] && [10][1..] == [];
      assert Printed(p, LineEnd(cr), color) == Printed(m, [10], color) == Step(m, 10, color);
      forall k: nat | k < 80 * |p.rows|
        ensures CellAt(m, k) == CellAt(p, k)
      {
        AtPosition(p, k);
      }
    } else {
      assert [10][1..] == [];
      assert Printed(p, LineEnd(cr), color) == Step(p, 10, color);
    }
    hide Step, CellAt;
  }

  function Text(lines: seq<seq<nat>>, cr: bool): seq<nat> {
    if lines == [] then [] else lines[0] + LineEnd(cr) + Text(lines[1..], cr)
  }

  /** The row in which line i begins, counted from the first line. */
  function RowsBefore(lines: seq<seq<nat>>, i: nat): nat
    requires i <= |lines|
  {
    if i == 0 then 0 else RowsFor(|lines[0]|) + RowsBefore(lines[1..], i - 1)
  }

  lemma OneLine(p: Page, text: seq<nat>, cr: bool, color: nat)
    requires PageOk(p) && p.col == 0 && Plain(text)
    ensures var q := Printed(p, text + LineEnd(cr), color);
      && q.row == p.row + RowsFor(|text|) && q.col == 0 && |q.rows| >= |p.rows|
      && (forall i: nat | i < |text| :: CellAt(q, 80 * p.row + i) == Cell(text[i], color))
      && forall k: nat | k < 80 * p.row :: CellAt(q, k) == CellAt(p, k)
  {
    LineIs(p, text, color);
    RowsForIs(|text|);
    PrintedAppend(p, text, LineEnd(cr), color);
    var m := Printed(p, text, color);
    LineEndIs(m, cr, color);
    hide Printed, CellAt, RowsFor, Plain, LineEnd;
    assert 80 * p.row + |text| <= 80 * |m.rows|;
  }

  /** Lines of plain text, each with its newline, from the start of a row on:
      every line begins in the row behind the last one of the line before, fills
      the cells from there on, and nothing above the first one changes. */
  lemma {:induction false} LinesAre(p: Page, lines: seq<seq<nat>>, cr: bool, color: nat)
    requires PageOk(p) && p.col == 0 && forall i | 0 <= i < |lines| :: Plain(lines[i])
    ensures var q := Printed(p, Text(lines, cr), color);
      && q.row == p.row + RowsBefore(lines, |lines|) && q.col == 0 && |q.rows| >= |p.rows|
      && (forall i: nat, c: nat | i < |lines| && c < |lines[i]| ::
        CellAt(q, 80 * (p.row + RowsBefore(lines, i)) + c) == Cell(lines[i][c], color))
      && forall k: nat | k < 80 * p.row :: CellAt(q, k) == CellAt(p, k)
    decreases |lines|
  {
    hide CellAt, RowsFor, Plain, LineEnd, Step;
    if lines != [] {
      var first := lines[0] + LineEnd(cr);
      var m := Printed(p, first, color);
      OneLine(p, lines[0], cr, color);
      PrintedAppend(p, first, Text(lines[1..], cr), color);
      LinesAre(m, lines[1..], cr, color);
      var q := Printed(p, Text(lines, cr), color);
      hide Printed;
      RowsForIs(|lines[0]|);
      forall i: nat, c: nat | i < |lines| && c < |lines[i]|
        ensures CellAt(q, 80 * (p.row + RowsBefore(lines, i)) + c) == Cell(lines[i][c], color)
      {
        if i == 0 {
          assert 80 * p.row + c < 80 * m.row;
        } else {
          assert lines[i] == lines[1..][i - 1];
          assert p.row + RowsBefore(lines, i) == m.row + RowsBefore(lines[1..], i - 1);
        }
      }
    }
  }

  /** The screen shows the last fifty rows of the page, cell by cell. */
  lemma ShownCells(s: Screen, line: int, column: int, p: Page)
    requires PageOk(p) && Shows(s, line, column, p)
    ensures |s| == 4000 && line == p.row - (|p.rows| - 50) && column == p.col
    ensures forall k: nat | k < 4000 :: s[k] == CellAt(p, 80 * (|p.rows| - 50) + k)
  {
    forall k: nat | k < 4000
      ensures s[k] == CellAt(p, 80 * (|p.rows| - 50) + k)
    {
      var y, x := k / 80, k % 80;
      assert RowOf(s, y)[x] == s[80 * y + x] && RowOf(s, y) == Visible(p, y);
      var j := 80 * (|p.rows| - 50) + k;
      assert j / 80 == |p.rows| - 50 + y && j % 80 == x;
    }
  }
}
