/**
 Virtual terminals (vterm.rs): a 14 by 56 character grid that scrolls, and a ring of typed
 characters. The grid is compared with the layout of everything ever written: lines split at
 newlines and folded at 56 columns, without bound.
 */
module Vterm {
  import opened Common

  const ROWS: nat := 14
  const COLS: nat := 56
  const RING: nat := 128
  const BLANK: Byte := 32
  const NEWLINE: Byte := 10
  const RETURN: Byte := 13

  type Line = seq<Byte>

  // ---- the unbounded layout -----------------------------------------------------------------------

  // The lines of a text: carriage returns are dropped, newlines separate.
  function Lines(text: Line): (r: seq<Line>)
    ensures |r| > 0
  {
    if text == [] then [[]]
    else if text[0] == NEWLINE then [[]] + Lines(text[1..])
    else
      var rest := Lines(text[1..]);
      if text[0] == RETURN then rest else OntoFirst(text[0], rest)
  }

  // A line folded into rows; a full row is left at once, so the last one is never full.
  function Fold(line: Line): (r: seq<Line>)
    ensures |r| > 0 && |r[|r| - 1]| < COLS
  {
    if |line| < COLS then [line] else [line[..COLS]] + Fold(line[COLS..])
  }

  function Folded(lines: seq<Line>): seq<Line> {
    if lines == [] then [] else Fold(lines[0]) + Folded(lines[1..])
  }

  function Layout(text: Line): seq<Line> { Folded(Lines(text)) }

  function Last(rows: seq<Line>): Line
    requires rows != []
  {
    rows[|rows| - 1]
  }

  function Front(rows: seq<Line>): seq<Line>
    requires rows != []
  {
    rows[..|rows| - 1]
  }

  // The effect of one more byte on lines, and on rows.
  function AddToLines(lines: seq<Line>, c: Byte): seq<Line>
    requires lines != []
  {
    if c == RETURN then lines
    else if c == NEWLINE then lines + [[]]
    else Typed(lines, c)
  }

  function Typed(rows: seq<Line>, c: Byte): seq<Line>
    requires rows != []
  {
    Front(rows) + [Last(rows) + [c]]
  }

  function AddToRows(rows: seq<Line>, c: Byte): seq<Line>
    requires rows != []
  {
    if c == RETURN then rows
    else if c == NEWLINE then rows + [[]]
    else
      var more := Typed(rows, c);
      if |Last(more)| < COLS then more else more + [[]]
  }

  function OntoFirst(h: Byte, lines: seq<Line>): seq<Line>
    requires lines != []
  {
    [[h] + lines[0]] + lines[1..]
  }

  lemma OntoFirstThenAdd(h: Byte, lines: seq<Line>, c: Byte)
    requires lines != []
    ensures OntoFirst(h, AddToLines(lines, c)) == AddToLines(OntoFirst(h, lines), c)
  {
    if c != RETURN && c != NEWLINE {
      if |lines| == 1 {
        assert [h] + (lines[0] + [c]) == ([h] + lines[0]) + [c];
      } else {
        assert Last(OntoFirst(h, lines)) == Last(lines);
      }
    }
  }

  lemma {:induction false} LinesSnoc(text: Line, c: Byte)
    ensures Lines(text + [c]) == AddToLines(Lines(text), c)
  {
    if text == [] {
      assert text + [c] == [c] && [c][1..] == [];
      var none: Line := [];
      assert [c] + none == [c] && none + [c] == [c];
      assert Lines(none) == [none] && OntoFirst(c, [none]) == [[c]] && Typed([none], c) == [[c]];
      assert [none] + [none] == [none, none];
    } else {
      LinesSnoc(text[1..], c);
      assert (text + [c])[1..] == text[1..] + [c];
      var rest := Lines(text[1..]);
      if text[0] == NEWLINE {
        assert Last([[]] + rest) == Last(rest) && Front([[]] + rest) == [[]] + Front(rest);
      } else if text[0] != RETURN {
        OntoFirstThenAdd(text[0], rest, c);
      }
    }
  }

  lemma FoldLong(line: Line)
    requires |line| >= COLS
    ensures Fold(line) == [line[..COLS]] + Fold(line[COLS..])
  {
  }

  lemma {:induction false} FoldSnoc(line: Line, c: Byte)
    requires c != RETURN && c != NEWLINE
    ensures Fold(line + [c]) == AddToRows(Fold(line), c)
  {
    if |line| + 1 < COLS {
    } else if |line| < COLS {
      assert (line + [c])[..COLS] == line + [c] && (line + [c])[COLS..] == [];
    } else {
      var first, rest, more := line[..COLS], line[COLS..], line + [c];
      assert more[..COLS] == first && more[COLS..] == rest + [c];
      FoldSnoc(rest, c);
      FoldLong(line);
      FoldLong(more);
      hide Fold, AddToRows;
      AppendRows([first], Fold(rest), c);
    }
  }

  lemma {:induction false} FoldedAppend(a: seq<Line>, b: seq<Line>)
    ensures Folded(a + b) == Folded(a) + Folded(b)
  {
    if a == [] {
      assert a + b == b;
    } else {
      assert (a + b)[1..] == a[1..] + b;
      FoldedAppend(a[1..], b);
    }
  }

  lemma FoldedLast(lines: seq<Line>)
    requires lines != []
    ensures Folded(lines) == Folded(Front(lines)) + Fold(Last(lines))
  {
    FoldedAppend(Front(lines), [Last(lines)]);
    assert lines == Front(lines) + [Last(lines)];
    assert Folded([Last(lines)]) == Fold(Last(lines));
  }

  lemma AppendRows(a: seq<Line>, b: seq<Line>, c: Byte)
    requires b != []
    ensures a + AddToRows(b, c) == AddToRows(a + b, c)
  {
  }

  /** The layout can be kept up byte by byte. */
  lemma LayoutSnoc(text: Line, c: Byte)
    ensures Layout(text) != [] && |Last(Layout(text))| < COLS
    ensures Layout(text + [c]) == AddToRows(Layout(text), c)
  {
    var lines := Lines(text);
    LinesSnoc(text, c);
    FoldedLast(lines);
    FoldedLast(AddToLines(lines, c));
    if c == RETURN {
    } else if c == NEWLINE {
      assert Front(lines + [[]]) == lines;
    } else {
      FoldSnoc(Last(lines), c);
      assert Front(AddToLines(lines, c)) == Front(lines);
      AppendRows(Folded(Front(lines)), Fold(Last(lines)), c);
    }
  }

  // Lines joined by newlines.
  function Text(lines: seq<Line>): Line
    requires lines != []
  {
    if |lines| == 1 then lines[0] else lines[0] + [NEWLINE] + Text(lines[1..])
  }

  predicate Printable(line: Line) { NEWLINE !in line && RETURN !in line }

  // A line in front of a text, or of nothing.
  lemma {:induction false} LineFirst(line: Line, text: Line)
    requires Printable(line)
    ensures Lines(line) == [line] && Lines(line + [NEWLINE] + text) == [line] + Lines(text)
    decreases |line|
  {
    var all := line + [NEWLINE] + text;
    if line == [] {
      assert all[1..] == text;
    } else {
      LineFirst(line[1..], text);
      assert all[1..] == line[1..] + [NEWLINE] + text;
      assert [line[0]] + line[1..] == line;
    }
  }

  /** Splitting a text into lines undoes joining them. */
  lemma {:induction false} LinesOfText(lines: seq<Line>)
    requires lines != [] && forall i :: 0 <= i < |lines| ==> Printable(lines[i])
    ensures Lines(Text(lines)) == lines
    decreases |lines|
  {
    hide Lines;
    if |lines| == 1 {
      LineFirst(lines[0], []);
    } else {
      LinesOfText(lines[1..]);
      LineFirst(lines[0], Text(lines[1..]));
    }
  }

  lemma {:induction false} ShortLines(lines: seq<Line>)
    requires forall i :: 0 <= i < |lines| ==> |lines[i]| < 56
    ensures Folded(lines) == lines
  {
    if lines != [] { ShortLines(lines[1..]); }
  }

  /** A text of at most 14 lines shorter than 56 characters is on the screen as it was written, line by line and
      character by character. */
  lemma ShortTextShown(lines: seq<Line>, grid: seq<Line>, row: nat, col: nat, r: nat, c: nat)
    requires 1 <= |lines| <= 14 && forall i :: 0 <= i < |lines| ==> Printable(lines[i]) && |lines[i]| < 56
    requires Shows(grid, row, col, Layout(Text(lines))) && r < 14 && c < 56
    ensures |grid| == 14 && |grid[r]| >= 56 && row == |lines| - 1 && col == |lines[row]|
    ensures grid[r][c] == if r < |lines| && c < |lines[r]| then lines[r][c] else 32
  {
    hide Lines, Text;
    LinesOfText(lines);
    ShortLines(lines);
    assert grid[r] == Shown(lines, r);
  }

  /** Carriage returns leave no trace. */
  lemma {:induction false} ReturnsDropped(x: Line, y: Line)
    ensures Lines(x + [RETURN] + y) == Lines(x + y)
    decreases |x|
  {
    var w := x + [RETURN] + y;
    if x == [] {
      assert w[1..] == y && x + y == y;
    } else {
      assert w[1..] == x[1..] + [RETURN] + y && (x + y)[1..] == x[1..] + y;
      ReturnsDropped(x[1..], y);
    }
  }

  /** A line of any length is folded into rows of 56 characters: column c of row r is character 56 r + c. */
  lemma {:induction false} FoldAt(line: Line, r: nat, c: nat)
    requires r < |Fold(line)| && c < |Fold(line)[r]|
    ensures 56 * r + c < |line| && Fold(line)[r][c] == line[56 * r + c]
    ensures r < |Fold(line)| - 1 ==> |Fold(line)[r]| == 56
    decreases |line|
  {
    if |line| >= 56 && r > 0 {
      var rest := line[56..];
      assert Fold(line)[r] == Fold(rest)[r - 1];
      FoldAt(rest, r - 1, c);
    }
  }

  // ---- what the grid must show --------------------------------------------------------------------

  // A row as the screen stores it: 57 characters, blank after the text.
  function Pad(line: Line): (r: Line)
    requires |line| <= COLS
    ensures |r| == COLS + 1
  {
    line + seq(COLS + 1 - |line|, _ => BLANK)
  }

  predicate RowsFit(rows: seq<Line>) {
    rows != [] && forall i :: 0 <= i < |rows| ==> |rows[i]| <= COLS
  }

  // Row r of the screen when the last 14 rows of the layout are shown, blank where there is nothing.
  function Shown(rows: seq<Line>, r: nat): Line
    requires RowsFit(rows)
  {
    var top := if |rows| > ROWS then |rows| - ROWS else 0;
    if top + r < |rows| then Pad(rows[top + r]) else Pad([])
  }

  predicate Shows(grid: seq<Line>, row: nat, col: nat, rows: seq<Line>) {
    && |grid| == ROWS && RowsFit(rows)
    && row == (if |rows| > ROWS then ROWS else |rows|) - 1 && col == |Last(rows)|
    && forall r: nat :: r < ROWS ==> grid[r] == Shown(rows, r)
  }

  // A new empty row: the cursor moves down, or everything moves up.
  lemma ShowsNewRow(grid: seq<Line>, row: nat, col: nat, rows: seq<Line>)
    requires Shows(grid, row, col, rows)
    ensures row + 1 < ROWS ==> Shows(grid, row + 1, 0, rows + [[]])
    ensures row + 1 == ROWS ==> Shows(grid[1..] + [Pad([])], row, 0, rows + [[]])
  {
    hide Pad;
    var more := rows + [[]];
    if row + 1 == ROWS {
      forall r: nat | r < ROWS - 1 ensures grid[r + 1] == Shown(more, r) { assert grid[r + 1] == Shown(rows, r + 1); }
    } else {
      forall r: nat | r < ROWS ensures grid[r] == Shown(more, r) { assert grid[r] == Shown(rows, r); }
    }
  }

  lemma ShowsCursor(grid: seq<Line>, row: nat, col: nat, rows: seq<Line>)
    requires Shows(grid, row, col, rows)
    ensures rows != [] && row < ROWS && col == |Last(rows)|
  {
  }

  function SetChar(line: Line, col: nat, c: Byte): Line
    requires col < |line|
  {
    line[col := c]
  }

  lemma PadChar(line: Line, c: Byte)
    requires |line| < COLS
    ensures SetChar(Pad(line), |line|, c) == Pad(line + [c])
  {
  }

  lemma ShowsChar(grid: seq<Line>, row: nat, col: nat, rows: seq<Line>, c: Byte)
    requires Shows(grid, row, col, rows) && col < COLS
    ensures row < ROWS && |grid[row]| == COLS + 1
    ensures Shows(grid[row := SetChar(grid[row], col, c)], row, col + 1, Typed(rows, c))
  {
    hide Pad, SetChar;
    assert grid[row] == Pad(Last(rows));
    PadChar(Last(rows), c);
    forall r: nat | r < ROWS && r != row ensures grid[r] == Shown(Typed(rows, c), r) {
      assert grid[r] == Shown(rows, r);
    }
  }

  class Terminal {
    var used: bool
    const grid: array<Line>
    var row: nat
    var col: nat
    const inq: array<Byte>
    var head: nat
    var tail: nat
    ghost var written: Line          // everything written since the terminal was created
    ghost var queue: Line            // typed and not yet read

    // The screen shows the end of the layout of all that was written, with the cursor at its very end.
    ghost predicate Screen()
      reads this`row, this`col, this`written, grid
    {
      grid.Length == ROWS && col < COLS && Shows(grid[..], row, col, Layout(written))
    }

    ghost predicate Ring()
      reads this`head, this`tail, this`queue, inq
    {
      && inq.Length == RING && head < RING && tail < RING && |queue| < RING
      && head == (tail + |queue|) % RING
      && forall i :: 0 <= i < |queue| ==> inq[(tail + i) % RING] == queue[i]
    }

    ghost predicate Valid()
      reads this, grid, inq
    {
      Screen() && Ring()
    }

    constructor ()
      ensures Valid() && used && written == [] && queue == [] && fresh(grid) && fresh(inq)
    {
      used := true;
      grid := new Line[ROWS](_ => Pad([]));
      inq := new Byte[RING](_ => 0);
      row, col, head, tail := 0, 0, 0, 0;
      written, queue := [], [];
    }

    method Scroll()
      requires grid.Length == ROWS
      modifies this`row, grid
      ensures row == ROWS - 1 && grid[..] == old(grid[1..]) + [Pad([])]
    {
      for r := 0 to ROWS - 1
        invariant forall q :: 0 <= q < ROWS ==> grid[q] == old(grid[if q < r then q + 1 else q])
      {
        grid[r] := grid[r + 1];
      }
      grid[ROWS - 1] := Pad([]);
      row := ROWS - 1;
    }

    method Putc(c: Byte)
      requires Valid()
      modifies this`row, this`col, this`written, grid
      ensures Valid() && written == if used then old(written) + [c] else old(written)
    {
      hide Ring, Layout, Shows, Pad, SetChar;
      if !used { return; }
      ghost var rows := Layout(written);
      ShowsCursor(grid[..], row, col, rows);
      LayoutSnoc(written, c);
      written := written + [c];
      if c == RETURN { return; }
      if c == NEWLINE {
        ShowsNewRow(grid[..], row, col, rows);
        row, col := row + 1, 0;
        if row >= ROWS { Scroll(); }
      } else {
        ShowsChar(grid[..], row, col, rows, c);
        grid[row] := SetChar(grid[row], col, c);
        col := col + 1;
        ghost var more := Typed(rows, c);
        if col >= COLS {
          ShowsNewRow(grid[..], row, col, more);
          col, row := 0, row + 1;
          if row >= ROWS { Scroll(); }
        }
      }
    }

    /** After any bytes at all the screen shows the end of their layout. */
    method Write(text: Line)
      requires Valid() && used
      modifies this`row, this`col, this`written, grid
      ensures Valid() && written == old(written) + text
      ensures row < ROWS && col < COLS && Shows(grid[..], row, col, Layout(old(written) + text))
    {
      hide Ring, Layout, Shows;
      for i := 0 to |text|
        invariant Valid() && written == old(written) + text[..i]
      {
        Putc(text[i]);
        assert text[..i + 1] == text[..i] + [text[i]];
      }
      assert text[..|text|] == text;
      ShowsCursor(grid[..], row, col, Layout(written));
    }

    /** Typed characters queue up; the 128th without a read is dropped. */
    method Push(c: Byte)
      requires Valid()
      modifies this`head, this`queue, inq
      ensures Valid()
      ensures queue == if used && |old(queue)| < RING - 1 then old(queue) + [c] else old(queue)
    {
      hide Screen;
      if !used { return; }
      var next := (head + 1) % RING;
      assert next == tail <==> |queue| == RING - 1;
      if next == tail { return; }
      inq[head] := c;
      head := next;
      queue := queue + [c];
    }

    /** Reads come out in the order the characters were typed. */
    method Getc() returns (r: Option<Byte>)
      requires Valid()
      modifies this`tail, this`queue
      ensures Valid()
      ensures r.None? <==> !used || old(queue) == []
      ensures r == None ==> queue == old(queue)
      ensures r.Some? ==> [r.value] + queue == old(queue)
    {
      hide Screen;
      if !used || head == tail { return None; }
      r := Some(inq[tail]);
      tail := (tail + 1) % RING;
      queue := queue[1..];
    }
  }
}
