/** The terminal writer with its 128-row ring.  The ring is proved to hold, for
    every line still in range, the row of the unbounded log. */
module Writer {
  import opened Prelude
  import opened Cursor
  import opened Terminal

  function Slot(line: nat): (s: nat)
    ensures s < SCROLLBACK
  {
    line % SCROLLBACK
  }

  lemma SlotsDiffer(a: nat, b: nat)
    requires a < b < a + SCROLLBACK
    ensures Slot(a) != Slot(b)
  {
  }

  /** The ring holds the last 128 rows of the log. */
  predicate Holds(ring: seq<Row>, log: seq<Row>) {
    |ring| == SCROLLBACK &&
    forall line :: SaturatingSub(|log|, SCROLLBACK) <= line < |log| ==> ring[Slot(line)] == log[line]
  }

  lemma HoldsAfterAppend(ring: seq<Row>, log: seq<Row>, row: Row)
    requires Holds(ring, log)
    ensures Holds(ring[Slot(|log|) := row], log + [row])
  {
    var longer := log + [row];
    forall line | SaturatingSub(|longer|, SCROLLBACK) <= line < |longer|
      ensures ring[Slot(|log|) := row][Slot(line)] == longer[line]
    {
      if line < |log| {
        SlotsDiffer(line, |log|);
      }
    }
  }

  lemma HoldsAfterUpdate(ring: seq<Row>, log: seq<Row>, at: nat, row: Row)
    requires Holds(ring, log) && SaturatingSub(|log|, SCROLLBACK) <= at < |log|
    ensures Holds(ring[Slot(at) := row], log[at := row])
  {
    forall line | SaturatingSub(|log|, SCROLLBACK) <= line < |log|
      ensures ring[Slot(at) := row][Slot(line)] == log[at := row][line]
    {
      if line < at {
        SlotsDiffer(line, at);
      } else if at < line {
        SlotsDiffer(at, line);
      }
    }
  }

  class Writer {
    const lines: array<Row>
    var cursor: Position
    var lastLine: nat
    var firstLine: nat
    var viewTop: nat
    var color: byte
    var columns: nat
    ghost var log: seq<Row>
    ghost var faults: nat

    ghost function View(): Term
      reads this
    {
      Term(log, cursor, viewTop, color, columns, faults)
    }

    ghost predicate Valid()
      reads this, lines
    {
      && lines.Length == SCROLLBACK && Holds(lines[..], log)
      && Shaped(View()) && lastLine == LastLine(View()) && firstLine == FirstLine(View())
    }

    /** A cell exists under the cursor, or a wrap is pending. */
    ghost predicate Writable()
      reads this
    {
      firstLine <= cursor.line <= lastLine && (cursor.column == columns || cursor.column < WIDTH)
    }

    /** `Writer::new`. */
    constructor ()
      ensures Valid() && View() == Fresh() && fresh(lines)
    {
      var blank := BlankRow();
      lines := new Row[SCROLLBACK](_ => blank);
      cursor, lastLine, firstLine, viewTop := Position(0, 0), 0, 0, 0;
      color, columns := LIGHT_GRAY, WIDTH;
      log, faults := [blank], 0;
    }

    method Clear()
      requires lines.Length == SCROLLBACK && 1 <= columns <= WIDTH
      modifies this, lines
      ensures Valid() && View() == Terminal.Clear(old(View()))
    {
      for i := 0 to SCROLLBACK
        invariant forall j :: 0 <= j < i ==> lines[j] == BlankRow()
        invariant View() == old(View())
      {
        lines[i] := BlankRow();
      }
      cursor := Position(0, 0);
      lastLine, firstLine, viewTop := 0, 0, 0;
      color := LIGHT_GRAY;
      log := [BlankRow()];
    }

    /** Its assertion is the precondition. */
    method SetColumns(width: nat)
      requires Valid() && 1 <= width <= WIDTH
      modifies this`columns
      ensures Valid() && View() == Terminal.SetColumns(old(View()), width)
    {
      columns := width;
    }

    method LiveTopLine() returns (top: nat)
      requires Valid()
      ensures top == LiveTop(View())
    {
      top := SaturatingSub(lastLine, ROWS - 1);
    }

    method EnsureLine(line: nat)
      requires Valid()
      modifies this`lastLine, this`firstLine, this`viewTop, this`log, lines
      ensures Valid() && View() == Terminal.EnsureLine(old(View()), line)
    {
      while lastLine < line
        invariant Holds(lines[..], log) && RowsOk(log) && lastLine == |log| - 1
        invariant Extend(log, line) == Extend(old(log), line)
        decreases line - lastLine
      {
        lastLine := lastLine + 1;
        HoldsAfterAppend(lines[..], log, BlankRow());
        ghost var after := lines[..][Slot(|log|) := BlankRow()];
        lines[Slot(lastLine)] := BlankRow();
        log := log + [BlankRow()];
        assert lines[..] == after;
      }
      firstLine := SaturatingSub(lastLine, SCROLLBACK - 1);
      viewTop := SaturatingSub(lastLine, ROWS - 1);
    }

    method Newline()
      requires Valid() && firstLine <= cursor.line <= lastLine
      modifies this, lines
      ensures Valid() && View() == Terminal.Newline(old(View()))
      ensures firstLine <= cursor.line <= lastLine
    {
      NewlineFacts(View());
      cursor := Position(cursor.line + 1, 0);
      EnsureLine(cursor.line);
    }

    /** Store a cell at the cursor. */
    method PutCell(cell: Cell)
      requires Valid() && Writable() && cursor.column < WIDTH
      modifies this`cursor, this`log, this`faults, lines
      ensures Valid() && View() == Put(old(View()), cell)
      ensures firstLine <= cursor.line <= lastLine && cursor == Position(old(cursor.line), old(cursor.column) + 1)
    {
      ghost var row := log[cursor.line][cursor.column := cell];
      HoldsAfterUpdate(lines[..], log, cursor.line, row);
      ghost var after := lines[..][Slot(cursor.line) := row];
      lines[Slot(cursor.line)] := lines[Slot(cursor.line)][cursor.column := cell];
      assert lines[..] == after;
      log := log[cursor.line := row];
      faults := if cursor.column < columns then faults else faults + 1;
      cursor := Position(cursor.line, cursor.column + 1);
    }

    /** The last arm of `write_byte`. */
    method WriteCell(b: byte)
      requires Valid() && Writable()
      modifies this, lines
      ensures Valid() && View() == WritePlain(old(View()), b)
      ensures firstLine <= cursor.line <= lastLine && columns == old(columns)
      ensures cursor.column == if old(cursor.column) == columns then 1 else old(cursor.column) + 1
    {
      var glyph := if IsGraphic(b) || b == 32 then b else 0xfe;
      if cursor.column == columns {
        Newline();
      }
      PutCell(Cell(glyph, color));
    }

    /** Every write returns the view to the live lines. */
    method ShowLive()
      requires Valid()
      modifies this`viewTop
      ensures Valid() && View() == Live(old(View()))
    {
      viewTop := LiveTopLine();
    }

    method WriteSpace()
      requires Valid() && Writable()
      modifies this, lines
      ensures Valid() && View() == WritePlain(Live(old(View())), 32)
      ensures firstLine <= cursor.line <= lastLine && columns == old(columns)
      ensures cursor.column == if old(cursor.column) == columns then 1 else old(cursor.column) + 1
    {
      ShowLive();
      WriteCell(32);
    }

    method WriteSpaces(n: nat)
      requires Valid() && firstLine <= cursor.line <= lastLine
      requires cursor.column <= columns || cursor.column + n <= WIDTH
      modifies this, lines
      ensures Valid() && View() == Terminal.WriteSpaces(old(View()), n)
      ensures firstLine <= cursor.line <= lastLine && columns == old(columns)
      ensures old(cursor.column) <= columns ==> cursor.column <= columns
    {
      var i := 0;
      while i < n
        invariant 0 <= i <= n && Valid() && firstLine <= cursor.line <= lastLine && columns == old(columns)
        invariant cursor.column <= columns || cursor.column + (n - i) <= WIDTH
        invariant old(cursor.column) <= columns ==> cursor.column <= columns
        invariant Terminal.WriteSpaces(View(), n - i) == Terminal.WriteSpaces(old(View()), n)
      {
        LogGrows(Live(View()), 32);
        WriteSpace();
        i := i + 1;
      }
    }

    method WriteByte(b: byte)
      requires Valid() && Writable()
      modifies this, lines
      ensures Valid() && View() == Terminal.WriteByte(old(View()), b)
      ensures firstLine <= cursor.line <= lastLine && columns == old(columns)
      ensures old(cursor.column) <= columns ==> cursor.column <= columns
    {
      ShowLive();
      if b == 10 {
        Newline();
      } else if b == 13 {
        cursor := Position(cursor.line, 0);
      } else if b == 9 {
        var spaces := 4 - cursor.column % 4;
        WriteSpaces(spaces);
      } else {
        WriteCell(b);
      }
    }

    /** `write_string`, on any characters. */
    method WriteString(text: seq<nat>)
      requires Valid() && firstLine <= cursor.line <= lastLine && cursor.column <= columns
      modifies this, lines
      ensures Valid() && View() == WriteBytes(old(View()), Encoded(text))
      ensures firstLine <= cursor.line <= lastLine && cursor.column <= columns == old(columns)
    {
      ghost var bytes := Encoded(text);
      var i := 0;
      while i < |text|
        invariant 0 <= i <= |text| && Valid() && firstLine <= cursor.line <= lastLine
        invariant cursor.column <= columns == old(columns)
        invariant WriteBytes(View(), bytes[i..]) == WriteBytes(old(View()), bytes)
      {
        assert bytes[i..][1..] == bytes[i + 1..];
        WriteByteGrows(View(), bytes[i]);
        WriteByte(if text[i] < 128 then text[i] else 0xfe);
        i := i + 1;
      }
    }

    /** `write_string` on ASCII text. */
    method WriteAscii(text: Bytes)
      requires Valid() && firstLine <= cursor.line <= lastLine && cursor.column <= columns && AllAscii(text)
      modifies this, lines
      ensures Valid() && View() == WriteBytes(old(View()), text)
      ensures firstLine <= cursor.line <= lastLine && cursor.column <= columns == old(columns)
    {
      AsciiIsItself(text);
      WriteString(text);
    }

    /** Its assertions are preconditions; the shell is proved to meet them. */
    method ReplaceInput(anchor: Position, text: Bytes, at: nat, oldLen: nat)
      requires Valid() && firstLine <= anchor.line <= lastLine && anchor.column <= columns
      requires AllAscii(text) && at <= |text|
      modifies this, lines
      ensures Valid() && View() == Terminal.ReplaceInput(old(View()), anchor, text, at, oldLen)
    {
      cursor := anchor;
      WriteAscii(text);
      ghost var written := View();
      var stale := SaturatingSub(oldLen, |text|);
      SpacesGrow(written, stale);
      WriteSpaces(stale);
      cursor := Offset(anchor, at, columns);
      EnsureLine(cursor.line);
    }

    method ScrollUp()
      requires Valid()
      modifies this`viewTop
      ensures Valid() && View() == Terminal.ScrollUp(old(View()))
    {
      viewTop := Max(SaturatingSub(viewTop, ROWS - 1), firstLine);
    }

    method ScrollDown()
      requires Valid()
      modifies this`viewTop
      ensures Valid() && View() == Terminal.ScrollDown(old(View()))
    {
      var top := LiveTopLine();
      viewTop := Min(viewTop + ROWS - 1, top);
    }

    /** What the renderer reads for one row of the window: the log row that it
        stands for. */
    method DisplayedRow(row: nat) returns (cells: Option<Row>)
      requires Valid() && row < ROWS
      ensures cells == if viewTop + row < |log| then Some(log[viewTop + row]) else None
    {
      var line := viewTop + row;
      if line <= lastLine {
        cells := Some(lines[Slot(line)]);
      } else {
        cells := None;
      }
    }
  }
}
