/** Rendering windows into the frame, and flushing the frame through the cache. */
module Frame {
  import opened Prelude
  import opened Terminal
  import Writer
  import Desktop

  const HEIGHT := 25
  const SCREEN_CELLS := 2000

  type Rect = Desktop.Rect

  /** Where a window may be: below the top bar, above the bottom bar. */
  predicate Fits(r: Rect) {
    && 0 <= r.x && r.x + r.width <= WIDTH && Desktop.HALF_W <= r.width
    && 1 <= r.y && r.y + Desktop.WINDOW_H <= HEIGHT - 1
  }

  /** Every rectangle of every reachable desktop fits, so every frame index
      below is in bounds. */
  lemma ReachableRectFits(events: seq<Desktop.Event>, i: nat)
    requires i < 2
    ensures Desktop.Inv(Desktop.INITIAL)
    ensures var rect := Desktop.RectOf(Desktop.Run(Desktop.INITIAL, events), i); rect.Some? ==> Fits(rect.value)
  {
    Desktop.EveryLayoutFits(events);
  }

  predicate InRect(r: Rect, i: nat) {
    r.y <= i / WIDTH < r.y + Desktop.WINDOW_H && r.x <= i % WIDTH < r.x + r.width
  }

  /** `draw_cell`: text is clipped at the right edge. */
  method DrawCell(frame: array<Cell>, row: nat, col: nat, text: Bytes, color: byte)
    requires frame.Length == SCREEN_CELLS && row < HEIGHT
    modifies frame
    ensures forall i :: 0 <= i < SCREEN_CELLS ==>
              frame[i] == if i / WIDTH == row && col <= i % WIDTH < col + |text|
                          then Cell(text[i % WIDTH - col], color) else old(frame[i])
  {
    var offset := 0;
    while offset < |text| && col + offset < WIDTH
      invariant 0 <= offset <= |text|
      invariant forall i :: 0 <= i < SCREEN_CELLS ==>
                  frame[i] == if i / WIDTH == row && col <= i % WIDTH < col + offset
                              then Cell(text[i % WIDTH - col], color) else old(frame[i])
    {
      frame[row * WIDTH + col + offset] := Cell(text[offset], color);
      offset := offset + 1;
    }
  }

  /** One cell of the text area of a window. */
  predicate InPanel(r: Rect, i: nat) {
    r.y < i / WIDTH < r.y + Desktop.WINDOW_H - 1 && r.x < i % WIDTH < r.x + r.width - 1
  }

  /** One inner row of `draw_window`: its two borders and its panel. */
  method DrawPanelRow(frame: array<Cell>, r: Rect, row: nat, border: byte)
    requires frame.Length == SCREEN_CELLS && Fits(r) && 1 <= row < Desktop.WINDOW_H - 1
    modifies frame
    ensures forall i :: 0 <= i < SCREEN_CELLS && i / WIDTH == r.y + row && r.x < i % WIDTH < r.x + r.width - 1 ==>
              frame[i] == BLANK
    ensures forall i :: 0 <= i < SCREEN_CELLS && !(i / WIDTH == r.y + row && r.x <= i % WIDTH < r.x + r.width) ==>
              frame[i] == old(frame[i])
  {
    DrawCell(frame, r.y + row, r.x, [32], border);
    DrawCell(frame, r.y + row, r.x + r.width - 1, [32], border);
    var col := 1;
    while col < r.width - 1
      invariant 1 <= col <= r.width - 1
      invariant forall i :: 0 <= i < SCREEN_CELLS && i / WIDTH == r.y + row && r.x < i % WIDTH < r.x + col ==>
                  frame[i] == BLANK
      invariant forall i :: 0 <= i < SCREEN_CELLS && !(i / WIDTH == r.y + row && r.x <= i % WIDTH < r.x + r.width) ==>
                  frame[i] == old(frame[i])
    {
      DrawCell(frame, r.y + row, r.x + col, [32], LIGHT_GRAY);
      col := col + 1;
    }
  }

  /** The inner rows of a window. */
  method DrawPanel(frame: array<Cell>, r: Rect, border: byte)
    requires frame.Length == SCREEN_CELLS && Fits(r)
    modifies frame
    ensures forall i :: 0 <= i < SCREEN_CELLS && InPanel(r, i) ==> frame[i] == BLANK
    ensures forall i :: 0 <= i < SCREEN_CELLS && !InRect(r, i) ==> frame[i] == old(frame[i])
  {
    var row := 1;
    while row < Desktop.WINDOW_H - 1
      invariant 1 <= row <= Desktop.WINDOW_H - 1
      invariant forall i :: 0 <= i < SCREEN_CELLS && InPanel(r, i) && i / WIDTH < r.y + row ==> frame[i] == BLANK
      invariant forall i :: 0 <= i < SCREEN_CELLS && !InRect(r, i) ==> frame[i] == old(frame[i])
    {
      DrawPanelRow(frame, r, row, border);
      row := row + 1;
    }
  }

  /** The cells of the box that closes a window. */
  predicate InCloseBox(r: Rect, i: nat) {
    i / WIDTH == r.y && r.x + r.width - 4 <= i % WIDTH < r.x + r.width - 1
  }

  // "[x]"
  const CLOSE: Bytes := [91, 120, 93]

  function CloseCell(r: Rect, i: nat): Cell
    requires InCloseBox(r, i)
  {
    Cell(CLOSE[i % WIDTH - (r.x + r.width - 4)], 0x4f)
  }

  /** Title bar, close box and footer of a window. */
  method DrawBars(frame: array<Cell>, r: Rect, title: Bytes, footer: Bytes, titleColor: byte, border: byte)
    requires frame.Length == SCREEN_CELLS && Fits(r) && |title| + 1 <= r.width && |footer| + 2 <= r.width
    modifies frame
    ensures forall i :: 0 <= i < SCREEN_CELLS && InPanel(r, i) ==> frame[i] == old(frame[i])
    ensures forall i :: 0 <= i < SCREEN_CELLS && InCloseBox(r, i) ==> frame[i] == CloseCell(r, i)
    ensures forall i :: 0 <= i < SCREEN_CELLS && !InRect(r, i) ==> frame[i] == old(frame[i])
  {
    var col := 0;
    while col < r.width
      invariant 0 <= col <= r.width
      invariant forall i :: 0 <= i < SCREEN_CELLS && InPanel(r, i) ==> frame[i] == old(frame[i])
      invariant forall i :: 0 <= i < SCREEN_CELLS && !InRect(r, i) ==> frame[i] == old(frame[i])
    {
      DrawCell(frame, r.y, r.x + col, [32], titleColor);
      DrawCell(frame, r.y + Desktop.WINDOW_H - 1, r.x + col, [32], border);
      col := col + 1;
    }
    DrawCell(frame, r.y, r.x + 1, title, titleColor);
    DrawCell(frame, r.y, r.x + r.width - 4, CLOSE, 0x4f);
    DrawCell(frame, r.y + Desktop.WINDOW_H - 1, r.x + 2, footer, border);
  }

  /** The cell of the frame that shows column `col` of text row `row`. */
  function PanelIndex(r: Rect, row: nat, col: nat): (i: nat)
    requires Fits(r) && row < ROWS && col < r.width - 2
    ensures i < SCREEN_CELLS && InPanel(r, i) && r.y + 2 <= i / WIDTH < r.y + 2 + ROWS
  {
    (r.y + 2 + row) * WIDTH + r.x + 1 + col
  }

  /** Copy one displayed row into the frame. */
  method CopyRow(frame: array<Cell>, r: Rect, row: nat, cells: Row)
    requires frame.Length == SCREEN_CELLS && Fits(r) && row < ROWS && |cells| == WIDTH
    modifies frame
    ensures forall i :: 0 <= i < SCREEN_CELLS ==>
              frame[i] == if i / WIDTH == r.y + 2 + row && r.x + 1 <= i % WIDTH < r.x + r.width - 1
                          then cells[i % WIDTH - r.x - 1] else old(frame[i])
  {
    var col := 0;
    while col < r.width - 2
      invariant 0 <= col <= r.width - 2
      invariant forall i :: 0 <= i < SCREEN_CELLS ==>
                  frame[i] == if i / WIDTH == r.y + 2 + row && r.x + 1 <= i % WIDTH < r.x + 1 + col
                              then cells[i % WIDTH - r.x - 1] else old(frame[i])
    {
      frame[PanelIndex(r, row, col)] := cells[col];
      col := col + 1;
    }
  }

  /** What row `row` of the text area shows. */
  ghost function ShownRow(t: Term, row: nat): Row
    requires Terminal.Shaped(t)
  {
    if t.viewTop + row < |t.log| then t.log[t.viewTop + row] else BlankRow()
  }

  /** The terminal inside a drawn window: each displayed row is the log row it
      stands for, rows past the end are blank, nothing else changes. */
  method BlitTerminal(frame: array<Cell>, r: Rect, terminal: Writer.Writer)
    requires frame.Length == SCREEN_CELLS && Fits(r) && terminal.Valid() && frame as object != terminal.lines
    requires forall i :: 0 <= i < SCREEN_CELLS && InPanel(r, i) ==> frame[i] == BLANK
    modifies frame
    ensures terminal.Valid()
    ensures forall i :: 0 <= i < SCREEN_CELLS && InPanel(r, i) && r.y + 2 <= i / WIDTH < r.y + 2 + ROWS ==>
              frame[i] == ShownRow(terminal.View(), i / WIDTH - r.y - 2)[i % WIDTH - r.x - 1]
    ensures forall i :: 0 <= i < SCREEN_CELLS && !InPanel(r, i) ==> frame[i] == old(frame[i])
  {
    var row := 0;
    while row < ROWS
      invariant 0 <= row <= ROWS && terminal.Valid()
      invariant forall i :: 0 <= i < SCREEN_CELLS && InPanel(r, i) && r.y + 2 <= i / WIDTH < r.y + 2 + row ==>
                  frame[i] == ShownRow(terminal.View(), i / WIDTH - r.y - 2)[i % WIDTH - r.x - 1]
      invariant forall i :: 0 <= i < SCREEN_CELLS && InPanel(r, i) && i / WIDTH >= r.y + 2 + row ==> frame[i] == BLANK
      invariant forall i :: 0 <= i < SCREEN_CELLS && !InPanel(r, i) ==> frame[i] == old(frame[i])
    {
      var cells := terminal.DisplayedRow(row);
      if cells.Some? {
        CopyRow(frame, r, row, cells.value);
      }
      row := row + 1;
    }
  }

  // ---------------------------------------------------------------------
  // All windows

  /** The cells of a window that show its terminal. */
  predicate InText(r: Rect, i: nat) {
    InPanel(r, i) && r.y + 2 <= i / WIDTH < r.y + 2 + ROWS
  }

  /** The log cell that a text cell of the frame stands for. */
  ghost function TextCell(t: Term, r: Rect, i: nat): Cell
    requires Terminal.Shaped(t) && InText(r, i) && r.x >= 0 && r.x + r.width <= WIDTH
  {
    ShownRow(t, i / WIDTH - r.y - 2)[i % WIDTH - r.x - 1]
  }

  /** `draw_window` and the rows of its terminal. */
  method RenderWindow(frame: array<Cell>, r: Rect, terminal: Writer.Writer, title: Bytes, footer: Bytes, titleColor: byte)
    requires frame.Length == SCREEN_CELLS && Fits(r) && terminal.Valid() && frame as object != terminal.lines
    requires |title| + 1 <= r.width && |footer| + 2 <= r.width
    modifies frame
    ensures terminal.Valid()
    ensures forall i :: 0 <= i < SCREEN_CELLS && InText(r, i) ==> frame[i] == TextCell(terminal.View(), r, i)
    ensures forall i :: 0 <= i < SCREEN_CELLS && InCloseBox(r, i) ==> frame[i] == CloseCell(r, i)
    ensures forall i :: 0 <= i < SCREEN_CELLS && !InRect(r, i) ==> frame[i] == old(frame[i])
  {
    DrawPanel(frame, r, 0x8f);
    DrawBars(frame, r, title, footer, titleColor, 0x8f);
    BlitTerminal(frame, r, terminal);
  }

  /** Where the cursor of a terminal is on the screen, if it is in view; a
      pending wrap is shown in the last column. */
  ghost function CursorCell(r: Rect, t: Term): (c: Option<nat>)
    requires Fits(r)
    ensures c.Some? ==> c.value < SCREEN_CELLS && InText(r, c.value)
  {
    if t.viewTop <= t.cursor.line < t.viewTop + ROWS then
      Some(PanelIndex(r, t.cursor.line - t.viewTop, Min(t.cursor.column, r.width - 3)))
    else
      None
  }

  const INVERSE: byte := 0x70

  function Lit(cell: Cell): Cell {
    cell.(color := INVERSE)
  }

  /** The inverse-video cursor of the active window: exactly its cell changes,
      and only in colour. */
  method HighlightCursor(frame: array<Cell>, r: Rect, terminal: Writer.Writer)
    requires frame.Length == SCREEN_CELLS && Fits(r) && terminal.Valid() && frame as object != terminal.lines
    modifies frame
    ensures terminal.Valid()
    ensures forall i :: 0 <= i < SCREEN_CELLS ==>
              frame[i] == if CursorCell(r, terminal.View()) == Some(i) then Lit(old(frame[i])) else old(frame[i])
  {
    if terminal.cursor.line >= terminal.viewTop {
      var row := terminal.cursor.line - terminal.viewTop;
      if row < ROWS {
        var index := PanelIndex(r, row, Min(terminal.cursor.column, r.width - 3));
        frame[index] := frame[index].(color := INVERSE);
      }
    }
  }

  // ---------------------------------------------------------------------
  // The frame cache

  class FrameCache {
    const cells: array<Cell>
    var valid: bool

    constructor ()
      ensures !valid && cells.Length == SCREEN_CELLS && fresh(cells)
    {
      cells := new Cell[SCREEN_CELLS](_ => BLANK);
      valid := false;
    }

    /** A valid cache is what the display memory holds. */
    ghost predicate InSync(vga: array<Cell>)
      reads this, cells, vga
    {
      cells.Length == vga.Length == SCREEN_CELLS && (valid ==> vga[..] == cells[..])
    }

    /** The flush at the end of `render_desktop_inner`: afterwards the display
        is the whole frame, though only cells that differ from the last frame
        were written; all of them the first time. */
    method Flush(frame: array<Cell>, vga: array<Cell>) returns (ghost written: set<nat>)
      requires InSync(vga) && frame.Length == SCREEN_CELLS
      requires frame != vga && frame != cells && cells != vga
      modifies this, cells, vga
      ensures InSync(vga) && valid
      ensures vga[..] == frame[..] && cells[..] == frame[..]
      ensures frame[..] == old(frame[..])
      ensures forall i :: i in written <==> 0 <= i < SCREEN_CELLS && (!old(valid) || old(cells[i]) != frame[i])
    {
      written := {};
      var index := 0;
      while index < SCREEN_CELLS
        invariant 0 <= index <= SCREEN_CELLS && valid == old(valid)
        invariant frame[..] == old(frame[..])
        invariant forall i :: 0 <= i < index ==> vga[i] == frame[i] && cells[i] == frame[i]
        invariant valid ==> forall i :: index <= i < SCREEN_CELLS ==> vga[i] == cells[i]
        invariant forall i :: index <= i < SCREEN_CELLS ==> cells[i] == old(cells[i])
        invariant forall i :: i in written <==> 0 <= i < index && (!old(valid) || old(cells[i]) != frame[i])
      {
        if !valid || cells[index] != frame[index] {
          vga[index] := frame[index];
          cells[index] := frame[index];
          written := written + {index};
        }
        index := index + 1;
      }
      valid := true;
    }
  }

  const TITLES: seq<Bytes> := [
    // " Terminal 1 - crabsh ", " Terminal 2 - crabsh "
    [32, 84, 101, 114, 109, 105, 110, 97, 108, 32, 49, 32, 45, 32, 99, 114, 97, 98, 115, 104, 32],
    [32, 84, 101, 114, 109, 105, 110, 97, 108, 32, 50, 32, 45, 32, 99, 114, 97, 98, 115, 104, 32]
  ]

  // " crabsh / PS/2 "
  const FOOTER: Bytes := [32, 99, 114, 97, 98, 115, 104, 32, 47, 32, 80, 83, 47, 50, 32]

  /** What the screen shows of a terminal in window `r`, apart from cells that
      `hidden` covers. */
  ghost predicate ShowsTerminal(frame: seq<Cell>, r: Rect, t: Term, hidden: nat -> bool) {
    && |frame| == SCREEN_CELLS && Terminal.Shaped(t) && Fits(r)
    && forall i :: 0 <= i < SCREEN_CELLS && InText(r, i) && !hidden(i) ==> frame[i] == TextCell(t, r, i)
  }

  /** Its close box, likewise. */
  predicate ShowsCloseBox(frame: seq<Cell>, r: Rect, hidden: nat -> bool) {
    && |frame| == SCREEN_CELLS
    && forall i :: 0 <= i < SCREEN_CELLS && InCloseBox(r, i) && !hidden(i) ==> frame[i] == CloseCell(r, i)
  }

  /** An open window and its terminal. */
  datatype Panel = Panel(rect: Option<Rect>, terminal: Writer.Writer)

  predicate Covers(p: Panel, i: nat) {
    p.rect.Some? && InRect(p.rect.value, i)
  }

  ghost predicate PanelOk(p: Panel)
    reads p.terminal, p.terminal.lines
  {
    p.terminal.Valid() && (p.rect.Some? ==> Fits(p.rect.value))
  }

  /** The windows of `render_desktop_inner`: the one behind first, then the
      active one, which alone may cover it. */
  method RenderWindows(frame: array<Cell>, behind: Panel, front: Panel, active: nat)
    requires frame.Length == SCREEN_CELLS && active < 2 && PanelOk(behind) && PanelOk(front)
    requires frame as object != behind.terminal.lines && frame as object != front.terminal.lines
    modifies frame
    ensures PanelOk(behind) && PanelOk(front)
    ensures front.rect.Some? ==> ShowsTerminal(frame[..], front.rect.value, front.terminal.View(), _ => false)
    ensures behind.rect.Some? ==> ShowsTerminal(frame[..], behind.rect.value, behind.terminal.View(), (i: nat) => Covers(front, i))
    ensures front.rect.Some? ==> ShowsCloseBox(frame[..], front.rect.value, _ => false)
    ensures behind.rect.Some? ==> ShowsCloseBox(frame[..], behind.rect.value, (i: nat) => Covers(front, i))
    ensures forall i :: 0 <= i < SCREEN_CELLS && !Covers(behind, i) && !Covers(front, i) ==> frame[i] == old(frame[i])
  {
    if behind.rect.Some? {
      RenderWindow(frame, behind.rect.value, behind.terminal, TITLES[1 - active], FOOTER, 0x8f);
    }
    if front.rect.Some? {
      RenderWindow(frame, front.rect.value, front.terminal, TITLES[active], FOOTER, 0x3f);
    }
  }

  /** Where the cursor of the active window is drawn. */
  ghost function FrontCursor(front: Panel): Option<nat>
    reads front.terminal
    requires front.rect.Some? ==> Fits(front.rect.value)
  {
    if front.rect.Some? then CursorCell(front.rect.value, front.terminal.View()) else None
  }

  /** From the windows to the display, over any background: afterwards the
      display is the frame.  The pointer is on top; the active window shows its
      terminal's rows, glyphs and colours, but for the inverse cursor; the
      other one shows its rows where it is not covered; elsewhere is the
      background. */
  method RenderDesktop(frame: array<Cell>, behind: Panel, front: Panel, active: nat,
                       pointerX: nat, pointerY: nat, cache: FrameCache, vga: array<Cell>)
    requires frame.Length == SCREEN_CELLS && active < 2 && PanelOk(behind) && PanelOk(front)
    requires pointerX < WIDTH && pointerY < HEIGHT
    requires frame as object != behind.terminal.lines && frame as object != front.terminal.lines
    requires cache.cells as object != behind.terminal.lines && cache.cells as object != front.terminal.lines
    requires vga as object != behind.terminal.lines && vga as object != front.terminal.lines
    requires cache.InSync(vga) && frame != vga && frame != cache.cells && cache.cells != vga
    modifies frame, cache, cache.cells, vga
    ensures cache.InSync(vga) && cache.valid && vga[..] == frame[..]
    ensures PanelOk(behind) && PanelOk(front)
    ensures vga[pointerY * WIDTH + pointerX] == Cell(43, 0x1f)
    ensures front.rect.Some? ==>
              forall i :: (0 <= i < SCREEN_CELLS && InText(front.rect.value, i) && i != pointerY * WIDTH + pointerX) ==>
                vga[i] == var cell := TextCell(front.terminal.View(), front.rect.value, i);
                          if FrontCursor(front) == Some(i) then Lit(cell) else cell
    ensures behind.rect.Some? ==>
              forall i :: (0 <= i < SCREEN_CELLS && InText(behind.rect.value, i) && !Covers(front, i)
                           && i != pointerY * WIDTH + pointerX) ==>
                vga[i] == TextCell(behind.terminal.View(), behind.rect.value, i)
    ensures front.rect.Some? ==>
              ShowsCloseBox(vga[..], front.rect.value, (i: nat) => i == pointerY * WIDTH + pointerX)
    ensures behind.rect.Some? ==>
              ShowsCloseBox(vga[..], behind.rect.value,
                            (i: nat) => Covers(front, i) || i == pointerY * WIDTH + pointerX)
    ensures forall i :: (0 <= i < SCREEN_CELLS && !Covers(behind, i) && !Covers(front, i)
                         && i != pointerY * WIDTH + pointerX) ==> vga[i] == old(frame[i])
  {
    RenderWindows(frame, behind, front, active);
    ghost var windows := frame[..];
    LightCursor(frame, front);
    ghost var lit := frame[..];
    DrawCell(frame, pointerY, pointerX, [43], 0x1f);
    ghost var drawn := frame[..];
    assert forall i :: 0 <= i < SCREEN_CELLS && i != pointerY * WIDTH + pointerX ==> drawn[i] == lit[i];
    ghost var _ := cache.Flush(frame, vga);
    assert forall i :: 0 <= i < SCREEN_CELLS ==> vga[i] == vga[..][i] && vga[i] == drawn[i];
  }

  /** The cursor of the active window, if one is open. */
  method LightCursor(frame: array<Cell>, front: Panel)
    requires frame.Length == SCREEN_CELLS && PanelOk(front) && frame as object != front.terminal.lines
    modifies frame
    ensures PanelOk(front)
    ensures forall i :: 0 <= i < SCREEN_CELLS ==>
              frame[i] == if FrontCursor(front) == Some(i) then Lit(old(frame[i])) else old(frame[i])
    ensures FrontCursor(front).Some? ==> Covers(front, FrontCursor(front).value)
  {
    if front.rect.Some? {
      HighlightCursor(frame, front.rect.value, front.terminal);
    }
  }
}
