/** What writing, redrawing and printing do to the cells that can be seen. */
module Painting {
  import opened Prelude
  import opened Cursor
  import opened Terminal

  /** Printable text in one colour. */
  function Cells(text: Bytes, color: byte): seq<Cell> {
    seq(|text|, i requires 0 <= i < |text| => Cell(text[i], color))
  }

  predicate AllPrintable(text: Bytes) {
    forall i :: 0 <= i < |text| ==> IsPrintable(text[i])
  }

  function Spaces(n: nat): (s: Bytes)
    ensures |s| == n && AllPrintable(s)
  {
    seq(n, _ => 32)
  }

  lemma LivePaintsNothing(t: Term, a: nat)
    requires Shaped(t) && a <= |Shown(t)|
    ensures Painted(t, Live(t), a, [])
  {
  }

  /** One printable byte, through `write_byte`. */
  lemma WritePrintable(t: Term, b: byte)
    requires Sound(t) && IsPrintable(b)
    ensures var u := WritePlain(Live(t), b);
            && WriteByte(t, b) == u
            && Sound(u) && Painted(t, u, Address(t.cursor, t.columns), [Cell(b, t.color)])
            && u.cursor == Offset(t.cursor, 1, t.columns)
            && |u.log| == Max(|t.log|, u.cursor.line + 1)
            && u.faults == t.faults && u.color == t.color
  {
    AddressInRange(t);
    LivePaintsNothing(t, Address(t.cursor, t.columns));
    WritePlainPaints(Live(t), b);
    StepIsOffset(t.cursor, t.columns);
    PaintedCompose(t, Live(t), WritePlain(Live(t), b), Address(t.cursor, t.columns), [], [Cell(b, t.color)]);
    assert [] + [Cell(b, t.color)] == [Cell(b, t.color)];
  }

  /** What writing printable text does: the conclusion shared by both loops. */
  ghost predicate WrittenFrom(t: Term, u: Term, text: Bytes)
    requires Sound(t)
  {
    && Sound(u)
    && Painted(t, u, Address(t.cursor, t.columns), Cells(text, t.color))
    && u.cursor == Offset(t.cursor, |text|, t.columns)
    && |u.log| == Max(|t.log|, u.cursor.line + 1)
    && u.faults == t.faults && u.color == t.color
  }

  lemma WrittenNothing(t: Term)
    requires Sound(t)
    ensures WrittenFrom(t, t, [])
  {
    AddressInRange(t);
    OffsetZero(t.cursor, t.columns);
  }

  lemma WrittenCompose(t: Term, u: Term, v: Term, front: Bytes, back: Bytes)
    requires Sound(t) && WrittenFrom(t, u, front) && WrittenFrom(u, v, back)
    ensures WrittenFrom(t, v, front + back)
  {
    OffsetAddress(t.cursor, |front|, t.columns);
    PaintedCompose(t, u, v, Address(t.cursor, t.columns), Cells(front, t.color), Cells(back, t.color));
    assert Cells(front, t.color) + Cells(back, t.color) == Cells(front + back, t.color);
    OffsetComposes(t.cursor, |front|, |back|, t.columns);
    OffsetAddress(u.cursor, |back|, t.columns);
  }

  lemma WrittenOneMore(t: Term, b: byte, v: Term, rest: Bytes)
    requires Sound(t) && IsPrintable(b)
    requires Sound(WriteByte(t, b)) && WrittenFrom(WriteByte(t, b), v, rest)
    ensures WrittenFrom(t, v, [b] + rest)
  {
    WritePrintable(t, b);
    assert Cells([b], t.color) == [Cell(b, t.color)];
    WrittenCompose(t, WriteByte(t, b), v, [b], rest);
  }

  lemma {:induction false} WriteBytesPaints(t: Term, text: Bytes)
    requires Sound(t) && AllPrintable(text)
    ensures WrittenFrom(t, WriteBytes(t, text), text)
    decreases |text|
  {
    if text == [] {
      WrittenNothing(t);
    } else {
      WritePrintable(t, text[0]);
      WriteBytesPaints(WriteByte(t, text[0]), text[1..]);
      WrittenOneMore(t, text[0], WriteBytes(t, text), text[1..]);
      assert [text[0]] + text[1..] == text;
    }
  }

  lemma {:induction false} WriteSpacesPaints(t: Term, n: nat)
    requires Sound(t)
    ensures WrittenFrom(t, WriteSpaces(t, n), Spaces(n))
    decreases n
  {
    if n == 0 {
      WrittenNothing(t);
      assert Spaces(0) == [];
    } else {
      WritePrintable(t, 32);
      WriteSpacesPaints(WriteByte(t, 32), n - 1);
      WrittenOneMore(t, 32, WriteSpaces(t, n), Spaces(n - 1));
      assert [32] + Spaces(n - 1) == Spaces(n);
    }
  }

  lemma OffsetMonotone(p: Position, a: nat, b: nat, width: nat)
    requires width > 0 && p.column <= width && a <= b
    ensures Offset(p, a, width).line <= Offset(p, b, width).line
  {
    OffsetComposes(p, a, b - a, width);
    OffsetAddress(p, a, width);
    OffsetAddress(Offset(p, a, width), b - a, width);
  }

  /** The text that a redraw writes: the line, then spaces over stale cells. */
  function Overwrite(text: Bytes, oldLen: nat): Bytes {
    text + Spaces(SaturatingSub(oldLen, |text|))
  }

  lemma ReplaceInputWrites(t: Term, anchor: Position, text: Bytes, oldLen: nat)
    requires Shaped(t) && anchor.line < |t.log| && anchor.column <= t.columns && AllPrintable(text)
    ensures var s := t.(cursor := anchor);
            var u := WriteSpaces(WriteBytes(s, text), SaturatingSub(oldLen, |text|));
            WrittenFrom(s, u, Overwrite(text, oldLen))
  {
    var s := t.(cursor := anchor);
    var n := SaturatingSub(oldLen, |text|);
    WriteBytesPaints(s, text);
    var m := WriteBytes(s, text);
    WriteSpacesPaints(m, n);
    WrittenCompose(s, m, WriteSpaces(m, n), text, Spaces(n));
  }

  /** `replace_input` paints the line and blanks at the anchor, nothing else,
      raises no fault, and puts the cursor where `cursor` steps lead. */
  lemma ReplaceInputPaints(t: Term, anchor: Position, text: Bytes, cursor: nat, oldLen: nat)
    requires Shaped(t) && FirstLine(t) <= anchor.line < |t.log| && anchor.column <= t.columns
    requires AllPrintable(text) && cursor <= |text|
    ensures var u := ReplaceInput(t, anchor, text, cursor, oldLen);
            && Sound(u) && u.faults == t.faults && u.color == t.color && u.viewTop == LiveTop(u)
            && Painted(t, u, Address(anchor, t.columns), Cells(Overwrite(text, oldLen), t.color))
            && u.cursor == Steps(anchor, cursor, t.columns)
            && |u.log| == Max(|t.log|, Offset(anchor, |Overwrite(text, oldLen)|, t.columns).line + 1)
  {
    var s := t.(cursor := anchor);
    ReplaceInputWrites(t, anchor, text, oldLen);
    var e := WriteSpaces(WriteBytes(s, text), SaturatingSub(oldLen, |text|));
    var u := ReplaceInput(t, anchor, text, cursor, oldLen);
    OffsetMonotone(anchor, cursor, |Overwrite(text, oldLen)|, t.columns);
    OffsetAddress(anchor, cursor, t.columns);
    OffsetIsSteps(anchor, cursor, t.columns);
    assert u.log == e.log;
    assert Shown(u) == Shown(e) && Shown(s) == Shown(t);
  }

  // ---------------------------------------------------------------------
  // The input line on screen

  /** From the anchor on, the terminal shows exactly `text`, then blanks. */
  ghost predicate InputShown(t: Term, anchor: Position, text: Bytes)
    requires Shaped(t)
  {
    var a := Address(anchor, t.columns);
    && a + |text| <= |Shown(t)|
    && forall x :: a <= x < |Shown(t)| ==>
         Shown(t)[x] == if x < a + |text| then Cell(text[x - a], LIGHT_GRAY) else BLANK
  }

  /** Everything before address `a` is as it was. */
  ghost predicate Undisturbed(t: Term, u: Term, a: nat)
    requires Shaped(t) && Shaped(u)
  {
    a <= |Shown(t)| <= |Shown(u)| && Shown(u)[..a] == Shown(t)[..a]
  }

  /** A redraw replaces the old text on screen by the new one, whatever their
      lengths, and leaves everything before the anchor alone. */
  lemma RedrawShowsInput(t: Term, anchor: Position, before: Bytes, text: Bytes, cursor: nat)
    requires Shaped(t) && FirstLine(t) <= anchor.line < |t.log| && anchor.column <= t.columns
    requires AllPrintable(text) && cursor <= |text| && t.color == LIGHT_GRAY
    requires InputShown(t, anchor, before)
    ensures var u := ReplaceInput(t, anchor, text, cursor, |before|);
            && Sound(u) && u.faults == t.faults && u.color == t.color && u.columns == t.columns
            && InputShown(u, anchor, text)
            && Undisturbed(t, u, Address(anchor, t.columns))
            && u.cursor == Steps(anchor, cursor, t.columns)
            && |u.log| == Max(|t.log|, Offset(anchor, Max(|before|, |text|), t.columns).line + 1)
  {
    ReplaceInputPaints(t, anchor, text, cursor, |before|);
    assert |Overwrite(text, |before|)| == Max(|before|, |text|);
  }

  // ---------------------------------------------------------------------
  // Output

  datatype Op = Emit(b: byte) | Paint(color: byte) | Wipe

  function Apply(t: Term, op: Op): (u: Term)
    requires t.log != []
    ensures u.log != []
  {
    match op
    case Emit(b) => WriteByteGrows(t, b); WriteByte(t, b)
    case Paint(color) => t.(color := color)
    case Wipe => Clear(t)
  }

  function Print(t: Term, ops: seq<Op>): (u: Term)
    requires t.log != []
    ensures u.log != []
    decreases |ops|
  {
    if ops == [] then t else Print(Apply(t, ops[0]), ops[1..])
  }

  /** Output never contains a carriage return. */
  predicate NoReturns(ops: seq<Op>) {
    forall i :: 0 <= i < |ops| ==> ops[i] != Emit(13)
  }

  /** The cursor is at the end of everything printed. */
  ghost predicate TailBlank(t: Term)
    requires Shaped(t)
  {
    InputShown(t, t.cursor, [])
  }

  /** At most `k` blank lines below the cursor. */
  predicate Slack(t: Term, k: nat) {
    LastLine(t) <= t.cursor.line + k
  }

  ghost predicate AtEnd(t: Term, k: nat) {
    Sound(t) && TailBlank(t) && Slack(t, k)
  }

  lemma PlainKeepsAtEnd(t: Term, u: Term, text: Bytes, k: nat)
    requires AtEnd(t, k) && WrittenFrom(t, u, text)
    ensures AtEnd(u, k) && u.cursor.line >= t.cursor.line
  {
    OffsetAddress(t.cursor, |text|, t.columns);
  }

  lemma NewlineKeepsAtEnd(t: Term, k: nat)
    requires AtEnd(t, k)
    ensures AtEnd(Newline(Live(t)), k) && Newline(Live(t)).cursor == Position(t.cursor.line + 1, 0)
    ensures Newline(Live(t)).faults == t.faults && Newline(Live(t)).columns == t.columns
  {
    var s := Live(t);
    NewlineFacts(s);
    var u := Newline(s);
    FlatExtend(s.log, t.cursor.line + 1, t.columns);
    AddressInRange(t);
    AddressInRange(u);
    assert (t.cursor.line + 1) * t.columns == t.cursor.line * t.columns + t.columns;
  }

  lemma EmitKeepsAtEnd(t: Term, b: byte, k: nat)
    requires AtEnd(t, k) && b != 13
    ensures var u := WriteByte(t, b);
            AtEnd(u, k) && u.faults == t.faults && u.columns == t.columns
  {
    var s := Live(t);
    if b == 10 {
      NewlineKeepsAtEnd(t, k);
    } else if b == 9 {
      WriteSpacesPaints(s, 4 - t.cursor.column % 4);
      PlainKeepsAtEnd(s, WriteByte(t, b), Spaces(4 - t.cursor.column % 4), k);
    } else {
      WritePlainPaints(s, b);
      StepIsOffset(s.cursor, s.columns);
      assert Cells([Glyph(b)], s.color) == [Cell(Glyph(b), s.color)];
      PlainKeepsAtEnd(s, WriteByte(t, b), [Glyph(b)], k);
    }
  }

  /** A cleared terminal of valid width is blank, whatever it was before. */
  lemma ClearedIsAtEnd(t: Term, k: nat)
    requires 1 <= t.columns <= WIDTH
    ensures var u := Clear(t);
            AtEnd(u, k) && u.faults == t.faults && u.columns == t.columns && u.color == LIGHT_GRAY
  {
    var u := Clear(t);
    assert u.log == [BlankRow()] && u.log[1..] == [];
    assert Flat([], t.columns) == [];
    assert Flat(u.log, t.columns) == u.log[0][..t.columns] + Flat(u.log[1..], t.columns);
  }

  lemma ApplyKeepsAtEnd(t: Term, op: Op, k: nat)
    requires AtEnd(t, k) && op != Emit(13)
    ensures var u := Apply(t, op);
            AtEnd(u, k) && u.faults == t.faults && u.columns == t.columns
  {
    match op
    case Emit(b) => EmitKeepsAtEnd(t, b, k);
    case Paint(_) =>
    case Wipe => ClearedIsAtEnd(t, k);
  }

  lemma {:induction false} PrintKeepsAtEnd(t: Term, ops: seq<Op>, k: nat)
    requires AtEnd(t, k) && NoReturns(ops)
    ensures var u := Print(t, ops);
            AtEnd(u, k) && u.faults == t.faults && u.columns == t.columns
    decreases |ops|
  {
    if ops != [] {
      ApplyKeepsAtEnd(t, ops[0], k);
      PrintKeepsAtEnd(Apply(t, ops[0]), ops[1..], k);
    }
  }

  // ---------------------------------------------------------------------
  // Output only appends

  lemma UndisturbedTransitive(t: Term, u: Term, v: Term, a: nat, b: nat)
    requires Shaped(t) && Shaped(u) && Shaped(v) && a <= b
    requires Undisturbed(t, u, a) && Undisturbed(u, v, b)
    ensures Undisturbed(t, v, a)
  {
    assert Shown(v)[..a] == Shown(v)[..b][..a];
    assert Shown(u)[..a] == Shown(u)[..b][..a];
  }

  lemma PaintedSparesAbove(t: Term, u: Term, a: nat, cells: seq<Cell>)
    requires Painted(t, u, a, cells) && a <= |Shown(t)|
    ensures Undisturbed(t, u, a)
  {
  }

  /** `u` shows everything that `t` shows before its cursor. */
  ghost predicate Appended(t: Term, u: Term) {
    && Sound(t) && Sound(u) && t.columns == u.columns
    && Address(t.cursor, t.columns) <= Address(u.cursor, u.columns)
    && Undisturbed(t, u, Address(t.cursor, t.columns))
  }

  lemma AppendedTransitive(t: Term, u: Term, v: Term)
    requires Appended(t, u) && Appended(u, v)
    ensures Appended(t, v)
  {
    UndisturbedTransitive(t, u, v, Address(t.cursor, t.columns), Address(u.cursor, u.columns));
  }

  lemma WrittenAppends(t: Term, u: Term, text: Bytes)
    requires Sound(t) && WrittenFrom(t, u, text)
    ensures Appended(t, u)
  {
    AddressInRange(t);
    OffsetAddress(t.cursor, |text|, t.columns);
    PaintedSparesAbove(t, u, Address(t.cursor, t.columns), Cells(text, t.color));
  }

  lemma NewlineAppends(t: Term)
    requires Sound(t)
    ensures Appended(t, Newline(Live(t)))
  {
    var s := Live(t);
    NewlineFacts(s);
    AddressInRange(t);
    FlatExtend(s.log, t.cursor.line + 1, t.columns);
    assert (t.cursor.line + 1) * t.columns == t.cursor.line * t.columns + t.columns;
  }

  lemma EmitAppends(t: Term, b: byte)
    requires Sound(t) && b != 13
    ensures Appended(t, WriteByte(t, b))
  {
    var s := Live(t);
    assert Shown(s) == Shown(t);
    if b == 10 {
      NewlineAppends(t);
    } else if b == 9 {
      WriteSpacesPaints(s, 4 - t.cursor.column % 4);
      WrittenAppends(s, WriteByte(t, b), Spaces(4 - t.cursor.column % 4));
    } else {
      WritePlainPaints(s, b);
      StepIsOffset(s.cursor, s.columns);
      assert Cells([Glyph(b)], s.color) == [Cell(Glyph(b), s.color)];
      WrittenAppends(s, WriteByte(t, b), [Glyph(b)]);
    }
  }

  /** The terminal shows `cells` from address `a` on. */
  ghost predicate Segment(t: Term, a: nat, cells: seq<Cell>) {
    Shaped(t) && a + |cells| <= |Shown(t)| && Shown(t)[a..a + |cells|] == cells
  }

  /** Written text is shown where the cursor was. */
  lemma WrittenIsShown(t: Term, u: Term, text: Bytes)
    requires Sound(t) && WrittenFrom(t, u, text)
    ensures Segment(u, Address(t.cursor, t.columns), Cells(text, t.color))
  {
  }

  lemma SegmentStays(t: Term, u: Term, a: nat, cells: seq<Cell>, below: nat)
    requires Shaped(t) && Shaped(u) && Segment(t, a, cells) && a + |cells| <= below && Undisturbed(t, u, below)
    ensures Segment(u, a, cells)
  {
    assert Shown(u)[a..a + |cells|] == Shown(u)[..below][a..a + |cells|];
    assert Shown(t)[a..a + |cells|] == Shown(t)[..below][a..a + |cells|];
  }

  lemma SegmentBeforeStays(t: Term, u: Term, a: nat, cells: seq<Cell>)
    requires Shaped(t) && Shaped(u) && |cells| <= a && Segment(t, a - |cells|, cells) && Undisturbed(t, u, a)
    ensures Segment(u, a - |cells|, cells)
  {
    SegmentStays(t, u, a - |cells|, cells, a);
  }

  lemma SegmentsJoin(t: Term, a: nat, front: seq<Cell>, back: seq<Cell>)
    requires Segment(t, a, front) && Segment(t, a + |front|, back)
    ensures Segment(t, a, front + back)
  {
    var m, e := a + |front|, a + |front| + |back|;
    assert Shown(t)[a..e] == Shown(t)[a..m] + Shown(t)[m..e];
  }

  predicate NoWipes(ops: seq<Op>) {
    forall i :: 0 <= i < |ops| ==> !ops[i].Wipe?
  }

  lemma {:induction false} PrintAppends(t: Term, ops: seq<Op>)
    requires Sound(t) && NoReturns(ops) && NoWipes(ops)
    ensures Appended(t, Print(t, ops))
    decreases |ops|
  {
    AddressInRange(t);
    if ops != [] {
      var u := Apply(t, ops[0]);
      if ops[0].Emit? {
        EmitAppends(t, ops[0].b);
      }
      assert Appended(t, u);
      PrintAppends(u, ops[1..]);
      AppendedTransitive(t, u, Print(t, ops));
    }
  }

  /** Output that ends with a newline or a clear leaves the cursor in column 0. */
  predicate EndsLine(ops: seq<Op>) {
    ops == [] || ops[|ops| - 1] == Emit(10) || ops[|ops| - 1] == Wipe
  }

  lemma {:induction false} EndsInColumnZero(t: Term, ops: seq<Op>)
    requires t.log != [] && EndsLine(ops) && (ops == [] ==> t.cursor.column == 0)
    ensures Print(t, ops).cursor.column == 0
    decreases |ops|
  {
    if |ops| == 1 {
      assert ops[1..] == [];
      NewlineColumn(t);
    } else if ops != [] {
      EndsInColumnZero(Apply(t, ops[0]), ops[1..]);
    }
  }

  lemma NewlineColumn(t: Term)
    requires t.log != []
    ensures Newline(Live(t)).cursor.column == 0
  {
  }
}
