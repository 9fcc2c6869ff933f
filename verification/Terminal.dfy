/** One terminal as a value: an unbounded log of rows instead of the 128-row
    ring.  `faults` is a monitor: it counts failed assertions and bytes written
    to the right of the last column. */
module Terminal {
  import opened Prelude
  import opened AlignUp
  import opened Cursor

  const WIDTH := 80                     // BUFFER_WIDTH
  const ROWS := 16                      // TERMINAL_ROWS
  const SCROLLBACK := 128               // SCROLLBACK_LINES

  const LIGHT_GRAY: byte := 7

  datatype Cell = Cell(glyph: byte, color: byte)

  const BLANK := Cell(32, LIGHT_GRAY)

  type Row = seq<Cell>

  datatype Term = Term(
    log: seq<Row>, cursor: Position, viewTop: nat, color: byte, columns: nat,
    faults: nat
  )

  function BlankRow(): (r: Row)
    ensures |r| == WIDTH && forall c :: 0 <= c < WIDTH ==> r[c] == BLANK
  {
    seq(WIDTH, _ => BLANK)
  }

  /** `Writer::new`. */
  function Fresh(): Term {
    Term([BlankRow()], Position(0, 0), 0, LIGHT_GRAY, WIDTH, 0)
  }

  function LastLine(t: Term): int {
    |t.log| - 1
  }

  function FirstLine(t: Term): nat
    requires t.log != []
  {
    SaturatingSub(LastLine(t), SCROLLBACK - 1)
  }

  function LiveTop(t: Term): nat
    requires t.log != []
  {
    SaturatingSub(LastLine(t), ROWS - 1)
  }

  function Fault(t: Term): Term {
    t.(faults := t.faults + 1)
  }

  function Clear(t: Term): Term {
    t.(log := [BlankRow()], cursor := Position(0, 0), viewTop := 0, color := LIGHT_GRAY)
  }

  function SetColumns(t: Term, columns: nat): Term {
    if 1 <= columns <= WIDTH then t.(columns := columns) else Fault(t)
  }

  /** `log` with blank rows added until `line` exists. */
  function Extend(log: seq<Row>, line: nat): seq<Row>
    decreases line + 1 - |log|
  {
    if line < |log| then log else Extend(log + [BlankRow()], line)
  }

  lemma {:induction false} ExtendFacts(log: seq<Row>, line: nat)
    ensures |Extend(log, line)| == Max(|log|, line + 1)
    ensures forall i :: 0 <= i < |log| ==> Extend(log, line)[i] == log[i]
    ensures forall i :: |log| <= i < |Extend(log, line)| ==> Extend(log, line)[i] == BlankRow()
    decreases line + 1 - |log|
  {
    if line >= |log| {
      ExtendFacts(log + [BlankRow()], line);
    }
  }

  function EnsureLine(t: Term, line: nat): (u: Term)
    ensures u.log != []
  {
    ExtendFacts(t.log, line);
    var u := t.(log := Extend(t.log, line));
    u.(viewTop := LiveTop(u))
  }

  function Newline(t: Term): Term {
    EnsureLine(t.(cursor := Position(t.cursor.line + 1, 0)), t.cursor.line + 1)
  }

  predicate RowsOk(log: seq<Row>) {
    forall i :: 0 <= i < |log| ==> |log[i]| == WIDTH
  }

  /** Store a cell at the cursor and move right. */
  function Put(t: Term, cell: Cell): Term {
    var Position(line, column) := t.cursor;
    if line >= |t.log| || column >= |t.log[line]| then Fault(t)
    else
      var u := t.(log := t.log[line := t.log[line][column := cell]], cursor := Position(line, column + 1));
      if column < t.columns then u else Fault(u)
  }

  function Glyph(b: byte): byte {
    if IsPrintable(b) then b else 0xfe
  }

  function WritePlain(t: Term, b: byte): Term {
    var u := if t.cursor.column == t.columns then Newline(t) else t;
    Put(u, Cell(Glyph(b), t.color))
  }

  /** Any write returns the view to the live lines. */
  function Live(t: Term): Term
    requires t.log != []
  {
    t.(viewTop := LiveTop(t))
  }

  function WriteSpaces(t: Term, n: nat): Term
    requires t.log != []
    decreases n
  {
    if n == 0 then t
    else
      LogGrows(Live(t), 32);
      WriteSpaces(WritePlain(Live(t), 32), n - 1)
  }

  lemma LogGrows(t: Term, b: byte)
    ensures |WritePlain(t, b).log| >= |t.log|
    ensures |Newline(t).log| >= |t.log|
  {
    ExtendFacts(t.log, t.cursor.line + 1);
  }

  /** `write_byte`. */
  function WriteByte(t: Term, b: byte): Term
    requires t.log != []
  {
    var u := Live(t);
    if b == 10 then Newline(u)
    else if b == 13 then u.(cursor := Position(u.cursor.line, 0))
    else if b == 9 then WriteSpaces(u, 4 - u.cursor.column % 4)
    else WritePlain(u, b)
  }

  lemma {:induction false} SpacesGrow(t: Term, n: nat)
    requires t.log != []
    ensures |WriteSpaces(t, n).log| >= |t.log|
    decreases n
  {
    if n > 0 {
      LogGrows(Live(t), 32);
      SpacesGrow(WritePlain(Live(t), 32), n - 1);
    }
  }

  lemma WriteByteGrows(t: Term, b: byte)
    requires t.log != []
    ensures |WriteByte(t, b).log| >= |t.log|
  {
    LogGrows(Live(t), b);
    SpacesGrow(Live(t), 4 - t.cursor.column % 4);
  }

  /** Bytes written one after the other. */
  function WriteBytes(t: Term, text: Bytes): (u: Term)
    requires t.log != []
    ensures |u.log| >= |t.log|
    decreases |text|
  {
    if text == [] then t
    else
      WriteByteGrows(t, text[0]);
      WriteBytes(WriteByte(t, text[0]), text[1..])
  }

  /** The bytes that `write_string` writes for the characters of a string, given
      by their code points. */
  function Encoded(text: seq<nat>): Bytes {
    seq(|text|, i requires 0 <= i < |text| => if text[i] < 128 then text[i] else 0xfe)
  }

  lemma AsciiIsItself(text: Bytes)
    requires AllAscii(text)
    ensures Encoded(text) == text
  {
  }

  /** `replace_input`. */
  function ReplaceInput(t: Term, anchor: Position, text: Bytes, cursor: nat, oldLen: nat): (u: Term)
    requires t.log != []
    ensures u.log != []
  {
    if t.columns == 0 || anchor.line < FirstLine(t) || cursor > |text| || !AllAscii(text) then Fault(t)
    else
      var written := WriteBytes(t.(cursor := anchor), text);
      SpacesGrow(written, SaturatingSub(oldLen, |text|));
      var erased := WriteSpaces(written, SaturatingSub(oldLen, |text|));
      var end := Offset(anchor, cursor, t.columns);
      EnsureLine(erased.(cursor := end), end.line)
  }

  function ScrollUp(t: Term): Term
    requires t.log != []
  {
    t.(viewTop := Max(SaturatingSub(t.viewTop, ROWS - 1), FirstLine(t)))
  }

  function ScrollDown(t: Term): Term
    requires t.log != []
  {
    t.(viewTop := Min(t.viewTop + ROWS - 1, LiveTop(t)))
  }

  // ---------------------------------------------------------------------
  // Invariant

  predicate Shaped(t: Term) {
    && t.log != [] && RowsOk(t.log)
    && 1 <= t.columns <= WIDTH
    && FirstLine(t) <= t.viewTop <= LiveTop(t)
  }

  /** The cursor is on the log and not past the last column. */
  predicate CursorOk(t: Term) {
    t.cursor.line < |t.log| && t.cursor.column <= t.columns
  }

  predicate Sound(t: Term) {
    Shaped(t) && CursorOk(t)
  }

  /** The visible cells of some rows, row by row. */
  function Flat(log: seq<Row>, width: nat): seq<Cell>
    requires RowsOk(log) && width <= WIDTH
  {
    if log == [] then [] else log[0][..width] + Flat(log[1..], width)
  }

  /** What can be seen of a terminal: the first `columns` cells of every row. */
  function Shown(t: Term): seq<Cell>
    requires Shaped(t)
  {
    Flat(t.log, t.columns)
  }

  lemma {:induction false} FlatLength(log: seq<Row>, width: nat)
    requires RowsOk(log) && width <= WIDTH
    ensures |Flat(log, width)| == |log| * width
    decreases |log|
  {
    if log != [] {
      FlatLength(log[1..], width);
      assert |log| * width == (|log| - 1) * width + width;
    }
  }

  lemma {:induction false} FlatConcat(a: seq<Row>, b: seq<Row>, width: nat)
    requires RowsOk(a) && RowsOk(b) && RowsOk(a + b) && width <= WIDTH
    ensures Flat(a + b, width) == Flat(a, width) + Flat(b, width)
    decreases |a|
  {
    if a == [] {
      assert a + b == b;
    } else {
      assert (a + b)[1..] == a[1..] + b;
      FlatConcat(a[1..], b, width);
    }
  }

  function Blanks(n: nat): seq<Cell> {
    seq(n, _ => BLANK)
  }

  /** Blank rows show as blank cells. */
  lemma {:induction false} FlatExtend(log: seq<Row>, line: nat, width: nat)
    requires RowsOk(log) && width <= WIDTH
    ensures RowsOk(Extend(log, line))
    ensures |Flat(log, width)| <= |Flat(Extend(log, line), width)|
    ensures Flat(Extend(log, line), width) ==
            Flat(log, width) + Blanks(|Flat(Extend(log, line), width)| - |Flat(log, width)|)
    decreases line + 1 - |log|
  {
    if line >= |log| {
      var more := log + [BlankRow()];
      FlatExtend(more, line, width);
      FlatConcat(log, [BlankRow()], width);
      assert [BlankRow()][1..] == [];
      assert Flat([BlankRow()], width) == BlankRow()[..width];
      assert Flat(more, width) == Flat(log, width) + BlankRow()[..width];
      var n := |Flat(Extend(log, line), width)| - |Flat(more, width)|;
      assert BlankRow()[..width] + Blanks(n) == Blanks(width + n);
    }
  }

  /** Changing a visible cell of one row changes one shown cell. */
  lemma FlatUpdate(log: seq<Row>, line: nat, column: nat, cell: Cell, width: nat)
    requires RowsOk(log) && line < |log| && column < width <= WIDTH
    requires RowsOk(log[line := log[line][column := cell]])
    ensures line * width + column < |Flat(log, width)|
    ensures Flat(log[line := log[line][column := cell]], width) ==
            Flat(log, width)[line * width + column := cell]
  {
    var row := log[line][column := cell];
    var front, back := log[..line], log[line + 1..];
    assert log == front + ([log[line]] + back);
    assert log[line := row] == front + ([row] + back);
    FlatConcat(front, [log[line]] + back, width);
    FlatConcat(front, [row] + back, width);
    FlatLength(front, width);
    assert ([row] + back)[1..] == back && ([log[line]] + back)[1..] == back;
    assert row[..width] == log[line][..width][column := cell];
  }

  /** `u` shows what `t` shows with `cells` painted from address `a`, and blank
      rows added at the end. */
  ghost predicate Painted(t: Term, u: Term, a: nat, cells: seq<Cell>) {
    && Shaped(t) && Shaped(u) && u.columns == t.columns
    && |Shown(t)| <= |Shown(u)| && a + |cells| <= |Shown(u)|
    && forall x :: 0 <= x < |Shown(u)| ==>
         Shown(u)[x] == if a <= x < a + |cells| then cells[x - a]
                        else if x < |Shown(t)| then Shown(t)[x] else BLANK
  }

  lemma PaintedCompose(t: Term, u: Term, v: Term, a: nat, front: seq<Cell>, back: seq<Cell>)
    requires Painted(t, u, a, front) && Painted(u, v, a + |front|, back)
    ensures Painted(t, v, a, front + back)
  {
  }

  /** A cursor inside the log addresses a shown cell, or just past them. */
  lemma AddressInRange(t: Term)
    requires Sound(t)
    ensures Address(t.cursor, t.columns) <= |Shown(t)|
    ensures t.cursor.column < t.columns ==> Address(t.cursor, t.columns) < |Shown(t)|
  {
    FlatLength(t.log, t.columns);
    RowFits(t.cursor.line, |t.log|, t.columns);
  }

  lemma RowFits(line: nat, rows: nat, width: nat)
    requires line < rows
    ensures line * width + width <= rows * width
  {
    var below := rows - line - 1;
    assert rows * width == (line + 1 + below) * width;
    assert (line + 1 + below) * width == line * width + width + below * width;
  }

  /** Adding blank rows paints nothing. */
  lemma ExtendPaintsNothing(t: Term, u: Term, line: nat, a: nat)
    requires Shaped(t) && Shaped(u) && u.columns == t.columns && u.log == Extend(t.log, line)
    requires a <= |Shown(t)|
    ensures Painted(t, u, a, [])
  {
    FlatExtend(t.log, line, t.columns);
  }

  /** Storing one cell paints exactly that cell. */
  lemma PutPaintsOne(t: Term, cell: Cell)
    requires Sound(t) && t.cursor.column < t.columns
    ensures var u := Put(t, cell);
            && Painted(t, u, Address(t.cursor, t.columns), [cell])
            && u.cursor == Position(t.cursor.line, t.cursor.column + 1)
            && |u.log| == |t.log| && u.faults == t.faults && u.color == t.color && u.viewTop == t.viewTop
  {
    FlatUpdate(t.log, t.cursor.line, t.cursor.column, cell, t.columns);
  }

  lemma NewlineFacts(t: Term)
    requires Shaped(t)
    ensures var u := Newline(t);
            && Shaped(u) && u.cursor == Position(t.cursor.line + 1, 0)
            && u.log == Extend(t.log, t.cursor.line + 1)
            && |u.log| == Max(|t.log|, t.cursor.line + 2)
            && u.columns == t.columns && u.color == t.color && u.faults == t.faults
            && u.viewTop == LiveTop(u)
  {
    ExtendFacts(t.log, t.cursor.line + 1);
  }

  /** Writing one printable byte paints one cell at the cursor's address and
      steps the cursor, wrapping first when a wrap is pending. */
  lemma WritePlainPaints(t: Term, b: byte)
    requires Sound(t)
    ensures var u := WritePlain(t, b);
            && Sound(u)
            && Painted(t, u, Address(t.cursor, t.columns), [Cell(Glyph(b), t.color)])
            && u.cursor == Step(t.cursor, t.columns)
            && |u.log| == Max(|t.log|, u.cursor.line + 1)
            && u.faults == t.faults && u.color == t.color
  {
    if t.cursor.column == t.columns {
      WrapPaints(t, Cell(Glyph(b), t.color));
    } else {
      PutPaintsOne(t, Cell(Glyph(b), t.color));
    }
  }

  /** A pending wrap: the cell lands at the start of the next row. */
  lemma WrapPaints(t: Term, cell: Cell)
    requires Sound(t) && t.cursor.column == t.columns
    ensures var u := Put(Newline(t), cell);
            && Sound(u)
            && Painted(t, u, Address(t.cursor, t.columns), [cell])
            && u.cursor == Step(t.cursor, t.columns)
            && |u.log| == Max(|t.log|, u.cursor.line + 1)
            && u.faults == t.faults && u.color == t.color
  {
    var n, w := Newline(t), t.columns;
    NewlineFacts(t);
    AddressInRange(t);
    assert (t.cursor.line + 1) * w == t.cursor.line * w + w;
    ExtendPaintsNothing(t, n, t.cursor.line + 1, Address(t.cursor, w));
    PutPaintsOne(n, cell);
    PaintedCompose(t, n, Put(n, cell), Address(t.cursor, w), [], [cell]);
    assert [] + [cell] == [cell];
  }
}
