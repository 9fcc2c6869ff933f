/** Any sequence of writes, redraws and scrolls keeps the view and the cursor
    on rows that the ring still holds. */
module LogRuns {
  import opened Prelude
  import opened Cursor
  import opened Terminal
  import opened Painting

  datatype Action =
    | Write(b: byte)                    // any byte, '\r' included
    | Redraw(anchor: Position, text: Bytes, cursor: nat, oldLen: nat)
    | PageUp
    | PageDown
    | Tint(color: byte)
    | Wipe

  function Act(t: Term, a: Action): (u: Term)
    requires t.log != []
    ensures u.log != []
  {
    match a
    case Write(b) => WriteByteGrows(t, b); WriteByte(t, b)
    case Redraw(anchor, text, cursor, oldLen) => ReplaceInput(t, anchor, text, cursor, oldLen)
    case PageUp => ScrollUp(t)
    case PageDown => ScrollDown(t)
    case Tint(color) => t.(color := color)
    case Wipe => Clear(t)
  }

  /** What `replace_input` asks of the shell: an anchor on a row still held,
      printable text, and neither the old nor the new line longer than the
      scrollback. */
  predicate Allowed(t: Term, a: Action)
    requires t.log != []
  {
    a.Redraw? ==>
      && FirstLine(t) <= a.anchor.line <= LastLine(t) && a.anchor.column <= t.columns
      && AllPrintable(a.text) && a.cursor <= |a.text|
      && a.anchor.column + Max(|a.text|, a.oldLen) <= SCROLLBACK * t.columns
  }

  /** The view and the cursor are on rows that the ring still holds. */
  predicate InWindow(t: Term) {
    && Sound(t)
    && FirstLine(t) <= t.viewTop <= LiveTop(t)
    && FirstLine(t) <= t.cursor.line <= LastLine(t)
  }

  lemma WrittenInWindow(t: Term, u: Term, text: Bytes)
    requires InWindow(t) && WrittenFrom(t, u, text)
    ensures InWindow(u)
  {
    OffsetAddress(t.cursor, |text|, t.columns);
  }

  lemma WriteInWindow(t: Term, b: byte)
    requires InWindow(t)
    ensures InWindow(WriteByte(t, b)) && WriteByte(t, b).faults == t.faults && WriteByte(t, b).columns == t.columns
  {
    var s := Live(t);
    NewlineFacts(s);
    if b == 9 {
      WriteSpacesPaints(s, 4 - t.cursor.column % 4);
      WrittenInWindow(s, WriteByte(t, b), Spaces(4 - t.cursor.column % 4));
    } else if b != 10 && b != 13 {
      WritePlainPaints(s, b);
      StepIsOffset(s.cursor, s.columns);
      assert Cells([Glyph(b)], s.color) == [Cell(Glyph(b), s.color)];
      WrittenInWindow(s, WriteByte(t, b), [Glyph(b)]);
    }
  }

  lemma OffsetStaysClose(p: Position, n: nat, width: nat)
    requires width > 0 && p.column + n <= SCROLLBACK * width
    ensures Offset(p, n, width).line < p.line + SCROLLBACK
  {
    var o := p.column + n;
    var q := o / width;
    assert o == width * q + o % width;
    assert q > SCROLLBACK ==> width * q >= width * (SCROLLBACK + 1);
    assert q == SCROLLBACK ==> width * q == SCROLLBACK * width;
  }

  lemma RedrawInWindow(t: Term, a: Action)
    requires InWindow(t) && Allowed(t, a) && a.Redraw?
    ensures InWindow(Act(t, a)) && Act(t, a).faults == t.faults && Act(t, a).columns == t.columns
  {
    var n := Max(|a.text|, a.oldLen);
    ReplaceInputPaints(t, a.anchor, a.text, a.cursor, a.oldLen);
    assert |Overwrite(a.text, a.oldLen)| == n;
    OffsetStaysClose(a.anchor, n, t.columns);
    OffsetIsSteps(a.anchor, a.cursor, t.columns);
    OffsetAddress(a.anchor, a.cursor, t.columns);
  }

  lemma ActInWindow(t: Term, a: Action)
    requires InWindow(t) && Allowed(t, a)
    ensures InWindow(Act(t, a)) && Act(t, a).faults == t.faults && Act(t, a).columns == t.columns
  {
    match a
    case Write(b) => WriteInWindow(t, b);
    case Redraw(_, _, _, _) => RedrawInWindow(t, a);
    case _ =>
  }

  /** Every action of the run is allowed where it happens. */
  ghost predicate AllowedRun(t: Term, run: seq<Action>)
    requires t.log != []
    decreases |run|
  {
    run == [] || (Allowed(t, run[0]) && AllowedRun(Act(t, run[0]), run[1..]))
  }

  function ActAll(t: Term, run: seq<Action>): Term
    requires t.log != []
    decreases |run|
  {
    if run == [] then t else ActAll(Act(t, run[0]), run[1..])
  }

  /** After any run, the view and the cursor are on held rows, and no byte was
      written past the last column. */
  lemma {:induction false} EveryRunStaysInWindow(t: Term, run: seq<Action>)
    requires InWindow(t) && AllowedRun(t, run)
    ensures InWindow(ActAll(t, run)) && ActAll(t, run).faults == t.faults && ActAll(t, run).columns == t.columns
    decreases |run|
  {
    if run != [] {
      ActInWindow(t, run[0]);
      EveryRunStaysInWindow(Act(t, run[0]), run[1..]);
    }
  }

  // ---------------------------------------------------------------------
  // What each byte does

  /** A newline starts the next row and a return goes back to the start of the
      row; neither changes what is written. */
  lemma LineControlsMove(t: Term)
    requires InWindow(t)
    ensures var u := WriteByte(t, 10);
            && u.cursor == Position(t.cursor.line + 1, 0) && u.viewTop == LiveTop(u)
            && |u.log| == Max(|t.log|, t.cursor.line + 2) && u.log[..|t.log|] == t.log
    ensures WriteByte(t, 13) == t.(cursor := Position(t.cursor.line, 0), viewTop := LiveTop(t))
  {
    ExtendFacts(t.log, t.cursor.line + 1);
  }

  /** A tab writes one to four blanks, up to the next column divisible by four. */
  lemma TabFillsToTheStop(t: Term, n: nat)
    requires InWindow(t) && 1 <= n <= 4 && (t.cursor.column + n) % 4 == 0
    ensures var u := WriteByte(t, 9); Sound(Live(t)) && WrittenFrom(Live(t), u, Spaces(n)) && u.viewTop == LiveTop(u)
  {
    assert n == 4 - t.cursor.column % 4;
    WriteSpacesPaints(Live(t), n);
    SpacesStayLive(Live(t), n);
  }

  /** Any other byte writes itself, or a square if it is not printable. */
  lemma OtherBytesPrint(t: Term, b: byte)
    requires InWindow(t) && b !in {9, 10, 13}
    ensures Sound(Live(t)) && WrittenFrom(Live(t), WriteByte(t, b), [if 32 <= b <= 126 then b else 0xfe])
    ensures WriteByte(t, b).viewTop == LiveTop(WriteByte(t, b))
  {
    var s, shown := Live(t), if 32 <= b <= 126 then b else 0xfe;
    assert WriteByte(t, b) == WritePlain(s, b) && Glyph(b) == shown;
    WritePlainPaints(s, b);
    StepIsOffset(s.cursor, s.columns);
    assert Cells([shown], s.color) == [Cell(shown, s.color)];
    PlainStaysLive(s, b);
  }

  lemma PlainStaysLive(t: Term, b: byte)
    requires t.log != [] && t.viewTop == LiveTop(t)
    ensures var u := WritePlain(t, b); u.log != [] && u.viewTop == LiveTop(u)
  {
    LogGrows(t, b);
  }

  lemma {:induction false} SpacesStayLive(t: Term, n: nat)
    requires t.log != [] && t.viewTop == LiveTop(t)
    ensures var u := WriteSpaces(t, n); u.log != [] && u.viewTop == LiveTop(u)
    decreases n
  {
    if n > 0 {
      PlainStaysLive(t, 32);
      assert Live(t) == t;
      SpacesStayLive(WritePlain(t, 32), n - 1);
    }
  }

  // ---------------------------------------------------------------------
  // Reading back

  /** So many pages up, or down. */
  function Pages(t: Term, up: bool, n: nat): (u: Term)
    requires t.log != []
    ensures u.log == t.log
    decreases n
  {
    if n == 0 then t else Pages(if up then ScrollUp(t) else ScrollDown(t), up, n - 1)
  }

  /** A page is fifteen rows; the first held row and the live view end the way. */
  lemma {:induction false} PagesExactly(t: Term, up: bool, n: nat)
    requires t.log != [] && FirstLine(t) <= t.viewTop <= LiveTop(t)
    ensures Pages(t, up, n) == t.(viewTop := if up then Max(t.viewTop - 15 * n, FirstLine(t))
                                             else Min(t.viewTop + 15 * n, LiveTop(t)))
    decreases n
  {
    if n > 0 {
      PagesExactly(if up then ScrollUp(t) else ScrollDown(t), up, n - 1);
    }
  }

  /** The sixteen rows of the window show a row of the log. */
  predicate InView(t: Term, line: nat) {
    t.viewTop <= line < t.viewTop + 16
  }

  /** Every row still held can be read: some number of pages up shows it. */
  lemma EveryHeldRowCanBeRead(t: Term, line: nat) returns (n: nat)
    requires t.log != [] && t.viewTop == LiveTop(t) && FirstLine(t) <= line <= LastLine(t)
    ensures InView(Pages(t, true, n), line)
  {
    n := if line >= t.viewTop then 0 else (t.viewTop - line + 14) / 15;
    PagesExactly(t, true, n);
  }

  /** As many pages down as up lead back to the live view. */
  lemma DownUndoesUp(t: Term, n: nat)
    requires t.log != [] && t.viewTop == LiveTop(t)
    ensures Pages(Pages(t, true, n), false, n) == t
  {
    PagesExactly(t, true, n);
    PagesExactly(Pages(t, true, n), false, n);
  }
}
