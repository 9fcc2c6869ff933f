/** From a reachable state of the consoles to the display: what is on the
    screen after a render. */
module Screen {
  import opened Prelude
  import opened AlignUp
  import opened Cursor
  import opened Terminal
  import opened Painting
  import opened Shell
  import Desktop
  import Pointing
  import Consoles
  import opened Frame

  // ---------------------------------------------------------------------
  // Cells of the log by their address

  lemma {:induction false} FlatAt(log: seq<Row>, width: nat, line: nat, column: nat)
    requires RowsOk(log) && width <= WIDTH && line < |log| && column < width
    ensures line * width + column < |Flat(log, width)|
    ensures Flat(log, width)[line * width + column] == log[line][column]
    decreases line
  {
    FlatLength(log, width);
    RowFits(line, |log|, width);
    if line > 0 {
      assert line * width == (line - 1) * width + width;
      FlatAt(log[1..], width, line - 1, column);
    }
  }

  /** An address below `rows * width` is in one of the rows. */
  lemma RowOf(a: nat, width: nat, rows: nat) returns (q: nat, r: nat)
    requires width > 0 && a < rows * width
    ensures q == a / width && r == a % width
    ensures q < rows && r < width && q * width + r == a
  {
    q, r := a / width, a % width;
    assert a == width * q + r && q * width == width * q && rows * width == width * rows;
    if q >= rows {
      TimesMonotone(width, rows, q);
    }
  }

  lemma ShownAt(t: Term, a: nat)
    requires Shaped(t) && a < |Shown(t)|
    ensures a / t.columns < |t.log| && a % t.columns < t.columns
    ensures t.log[a / t.columns][a % t.columns] == Shown(t)[a]
  {
    FlatLength(t.log, t.columns);
    var line, column := RowOf(a, t.columns, |t.log|);
    FlatAt(t.log, t.columns, line, column);
  }

  // ---------------------------------------------------------------------
  // The prompt and the line

  /** The cells of the prompt and the typed line, in order. */
  function LineCells(s: Shell): seq<Cell> {
    PromptCells() + Cells(s.line.text, LIGHT_GRAY)
  }

  /** The address of the `k`-th of them. */
  function LineAddress(c: Console, k: nat): int {
    Address(c.shell.anchor, c.term.columns) - PROMPT_WIDTH + k
  }

  lemma LineCellShown(c: Console, k: nat)
    requires ConsoleInv(c) && k < |LineCells(c.shell)|
    ensures 0 <= LineAddress(c, k) < |Shown(c.term)|
    ensures Shown(c.term)[LineAddress(c, k)] == LineCells(c.shell)[k]
  {
    var t, a := c.term, Address(c.shell.anchor, c.term.columns);
    assert InputShown(t, c.shell.anchor, c.shell.line.text);
    if k < PROMPT_WIDTH {
      assert Shown(t)[a - PROMPT_WIDTH..a][k] == PromptCells()[k];
    }
  }

  /** They are on the rows in view when the view is live. */
  lemma LineCellInView(c: Console, k: nat)
    requires ConsoleInv(c) && k < |LineCells(c.shell)| && c.term.viewTop == LiveTop(c.term)
    ensures 0 <= LineAddress(c, k)
    ensures c.term.viewTop <= LineAddress(c, k) / c.term.columns < c.term.viewTop + ROWS
    ensures LineAddress(c, k) / c.term.columns < |c.term.log|
  {
    LineCellShown(c, k);
    ShownAt(c.term, LineAddress(c, k));
    LineAtLeast(c.shell.anchor.line, c.term.columns, LineAddress(c, k));
  }

  lemma LineAtLeast(line: nat, width: nat, a: nat)
    requires width > 0 && line * width <= a
    ensures line <= a / width
  {
    var q, r := a / width, a % width;
    assert a == width * q + r;
    assert width * (q + 1) == width * q + width;
    assert width * line == line * width;
    if q < line {
      TimesMonotone(width, q + 1, line);
    }
  }

  /** Where the `k`-th cell is on the screen. */
  ghost function ScreenIndex(r: Rect, c: Console, k: nat): (i: nat)
    requires ConsoleInv(c) && k < |LineCells(c.shell)| && c.term.viewTop == LiveTop(c.term)
    requires Fits(r) && r.width - 2 == c.term.columns
    ensures i < SCREEN_CELLS && InText(r, i)
  {
    LineCellInView(c, k);
    var a := LineAddress(c, k);
    PanelIndex(r, a / c.term.columns - c.term.viewTop, a % c.term.columns)
  }

  lemma PanelIndexSplits(r: Rect, row: nat, col: nat)
    requires Fits(r) && row < ROWS && col < r.width - 2
    ensures PanelIndex(r, row, col) / WIDTH == r.y + 2 + row
    ensures PanelIndex(r, row, col) % WIDTH == r.x + 1 + col
  {
  }

  /** The text cell there is that cell of the prompt or of the line. */
  lemma LineCellOnScreen(r: Rect, c: Console, k: nat)
    requires ConsoleInv(c) && k < |LineCells(c.shell)| && c.term.viewTop == LiveTop(c.term)
    requires Fits(r) && r.width - 2 == c.term.columns
    ensures TextCell(c.term, r, ScreenIndex(r, c, k)) == LineCells(c.shell)[k]
  {
    var t, a := c.term, LineAddress(c, k);
    LineCellInView(c, k);
    LineCellShown(c, k);
    ShownAt(t, a);
    PanelIndexSplits(r, a / t.columns - t.viewTop, a % t.columns);
  }

  // ---------------------------------------------------------------------
  // A render of a reachable state

  /** The active terminal of a system, which must be open. */
  ghost predicate Ready(s: Consoles.System) {
    && Consoles.Inv(s) && Consoles.Focused(s)
    && Consoles.Active(s).term.viewTop == LiveTop(Consoles.Active(s).term)
  }

  lemma OpenRectFits(d: Desktop.Desktop, i: nat)
    requires Desktop.Inv(d) && i < 2 && d.open[i]
    ensures Desktop.RectOf(d, i).Some? && Fits(Desktop.RectOf(d, i).value)
    ensures Desktop.RectOf(d, i).value.width - 2 == Desktop.Columns(d, i)
  {
  }

  lemma ReadyFacts(s: Consoles.System)
    requires Ready(s)
    ensures var r, c := Desktop.RectOf(s.desktop, s.desktop.active), Consoles.Active(s);
            ConsoleInv(c) && r.Some? && Fits(r.value) && r.value.width - 2 == c.term.columns
  {
    Consoles.ActiveInv(s);
    OpenRectFits(s.desktop, s.desktop.active);
    assert Consoles.TerminalInv(s, s.desktop.active);
  }

  /** The front panel is the active window of the system. */
  ghost predicate IsFront(front: Panel, s: Consoles.System)
    reads front.terminal
    requires Ready(s)
  {
    && front.rect == Desktop.RectOf(s.desktop, s.desktop.active)
    && front.terminal.View() == Consoles.Active(s).term
  }

  /** On the display, every cell of the active prompt and of the line typed after
      it is in its place, but for the pointer on top and the inverse cursor. */
  ghost predicate LineOnDisplay(display: seq<Cell>, s: Consoles.System, cursor: Option<nat>)
    requires |display| == SCREEN_CELLS && Ready(s)
  {
    ReadyFacts(s);
    var r, c := Desktop.RectOf(s.desktop, s.desktop.active).value, Consoles.Active(s);
    forall k :: 0 <= k < |LineCells(c.shell)| ==>
      var i := ScreenIndex(r, c, k);
      i != s.desktop.pointerY * WIDTH + s.desktop.pointerX ==>
        display[i] == if cursor == Some(i) then Lit(LineCells(c.shell)[k]) else LineCells(c.shell)[k]
  }

  /** A render in any reachable state whose active view is live shows the prompt
      and the line being typed. */
  method RenderSystem(frame: array<Cell>, behind: Panel, front: Panel, cache: FrameCache, vga: array<Cell>,
                      pointerX: nat, pointerY: nat, active: nat, ghost s: Consoles.System)
    requires Ready(s) && IsFront(front, s) && PanelOk(behind) && PanelOk(front)
    requires active == s.desktop.active && pointerX == s.desktop.pointerX && pointerY == s.desktop.pointerY
    requires frame.Length == SCREEN_CELLS
    requires frame as object != behind.terminal.lines && frame as object != front.terminal.lines
    requires cache.cells as object != behind.terminal.lines && cache.cells as object != front.terminal.lines
    requires vga as object != behind.terminal.lines && vga as object != front.terminal.lines
    requires cache.InSync(vga) && frame != vga && frame != cache.cells && cache.cells != vga
    modifies frame, cache, cache.cells, vga
    ensures cache.InSync(vga) && PanelOk(front) && IsFront(front, s)
    ensures LineOnDisplay(vga[..], s, FrontCursor(front))
  {
    ReadyFacts(s);
    RenderDesktop(frame, behind, front, active, pointerX, pointerY, cache, vga);
    ghost var r, c := front.rect.value, Consoles.Active(s);
    forall k | 0 <= k < |LineCells(c.shell)|
      ensures TextCell(c.term, r, ScreenIndex(r, c, k)) == LineCells(c.shell)[k]
    {
      LineCellOnScreen(r, c, k);
    }
  }

  /** The cells whose click closes a window are those its "[x]" is drawn on, as
      far as the window is seen there. */
  lemma CloseBoxIsDrawn(d: Desktop.Desktop, i: nat, x: nat, y: nat)
    requires Desktop.Inv(d) && i < 2 && x < WIDTH && y < HEIGHT
    ensures Pointing.OnCloseBox(d, i, x, y) <==>
            && Pointing.Seen(d, i, x, y) && Desktop.RectOf(d, i).Some?
            && InCloseBox(Desktop.RectOf(d, i).value, y * WIDTH + x)
  {
    Pointing.RectIsCorner(d, i);
    assert (y * WIDTH + x) / WIDTH == y && (y * WIDTH + x) % WIDTH == x;
  }

  /** The inverse cell is where the next byte goes, or the last of a full row. */
  lemma CursorCellIsNext(r: Rect, t: Term)
    requires Fits(r) && Sound(t) && t.columns == r.width - 2
    ensures CursorCell(r, t).Some? <==> 0 <= t.cursor.line - t.viewTop < 16
    ensures CursorCell(r, t).Some? ==>
              TextCell(t, r, CursorCell(r, t).value) ==
              t.log[t.cursor.line][if t.cursor.column < t.columns then t.cursor.column else t.columns - 1]
  {
    if CursorCell(r, t).Some? {
      var row, col := t.cursor.line - t.viewTop, Min(t.cursor.column, r.width - 3);
      var i := PanelIndex(r, row, col);
      assert i / WIDTH == r.y + 2 + row && i % WIDTH == r.x + 1 + col;
    }
  }
}
