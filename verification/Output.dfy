/** Where the lines that a command prints appear. */
module Output {
  import opened Prelude
  import opened AlignUp
  import opened Cursor
  import opened Terminal
  import opened Painting
  import LineEditor
  import History
  import opened Completion
  import opened Shell
  import opened KeyRuns

  /** Lines of text, each ended by a newline. */
  function Lined(lines: seq<Bytes>): seq<Op> {
    if lines == [] then [] else Emits(lines[0]) + ([Emit(10)] + Lined(lines[1..]))
  }

  /** The rows that a line of `n` bytes takes: it is wrapped at the width. */
  function RowsOf(n: nat, width: nat): nat
    requires width > 0
  {
    if n == 0 then 1 else (n + width - 1) / width
  }

  function TotalRows(lines: seq<Bytes>, width: nat): nat
    requires width > 0
  {
    if lines == [] then 0 else RowsOf(|lines[0]|, width) + TotalRows(lines[1..], width)
  }

  /** Each line is shown from the start of its row on, one below the other. */
  ghost predicate LinesShown(t: Term, row: nat, lines: seq<Bytes>)
    requires Shaped(t)
    decreases |lines|
  {
    lines == [] ||
    (&& Segment(t, row * t.columns, Cells(lines[0], LIGHT_GRAY))
     && LinesShown(t, row + RowsOf(|lines[0]|, t.columns), lines[1..]))
  }

  // ---------------------------------------------------------------------
  // Printing in pieces

  lemma {:induction false} PrintConcat(t: Term, a: seq<Op>, b: seq<Op>)
    requires t.log != []
    ensures Print(t, a + b) == Print(Print(t, a), b)
    decreases |a|
  {
    if a == [] {
      assert a + b == b;
    } else {
      assert (a + b)[1..] == a[1..] + b;
      PrintConcat(Painting.Apply(t, a[0]), a[1..], b);
    }
  }

  lemma {:induction false} PrintIsWrite(t: Term, text: Bytes)
    requires t.log != []
    ensures Print(t, Emits(text)) == WriteBytes(t, text)
    decreases |text|
  {
    if text != [] {
      WriteByteGrows(t, text[0]);
      assert Emits(text)[1..] == Emits(text[1..]);
      PrintIsWrite(WriteByte(t, text[0]), text[1..]);
    }
  }

  lemma {:induction false} LinedIsClean(lines: seq<Bytes>)
    requires Printables(lines)
    ensures Clean(Lined(lines)) && NoWipes(Lined(lines))
    decreases |lines|
  {
    if lines != [] {
      LinedIsClean(lines[1..]);
    }
  }

  /** A newline after `n` bytes from the start of a row. */
  lemma RowsBelow(line: nat, n: nat, width: nat)
    requires width > 0
    ensures Offset(Position(line, 0), n, width).line + 1 == line + RowsOf(n, width)
  {
    if n > 0 {
      RowsRoundUp(n, width);
    }
  }

  /** Rounding a division up. */
  lemma RowsRoundUp(n: nat, width: nat)
    requires width > 0
    ensures (n + width - 1) / width == n / width + if n % width == 0 then 0 else 1
  {
    var q, r := n / width, n % width;
    assert n == width * q + r && width * (q + 1) == width * q + width;
    if r == 0 {
      DivisionIs(n + width - 1, width, q, width - 1);
    } else {
      DivisionIs(n + width - 1, width, q + 1, r - 1);
    }
  }

  lemma DivisionIs(n: nat, width: nat, q: nat, r: nat)
    requires width > 0 && n == width * q + r && r < width
    ensures n / width == q
  {
    var k := n / width;
    assert n == width * k + n % width;
    assert width * (k + 1) == width * k + width && width * (q + 1) == width * q + width;
    if k < q {
      TimesMonotone(width, k + 1, q);
    } else if q < k {
      TimesMonotone(width, q + 1, k);
    }
  }

  /** The cursor at the start of a row at the end of everything, in grey. */
  ghost predicate Ready(t: Term) {
    AtEnd(t, REACH) && t.cursor.column == 0 && t.color == LIGHT_GRAY
  }

  /** One line. */
  lemma LineIsShown(t: Term, text: Bytes)
    requires Ready(t) && AllPrintable(text)
    ensures var u := Print(t, Emits(text) + [Emit(10)]);
            && Ready(u) && Appended(t, u) && u.cursor.line == t.cursor.line + RowsOf(|text|, t.columns)
            && Segment(u, t.cursor.line * t.columns, Cells(text, LIGHT_GRAY))
            && Address(t.cursor, t.columns) + |text| <= Address(u.cursor, u.columns)
  {
    var m := WriteBytes(t, text);
    PrintIsWrite(t, text);
    PrintConcat(t, Emits(text), [Emit(10)]);
    assert [Emit(10)][1..] == [];
    var u := Newline(Live(m));
    assert Print(m, [Emit(10)]) == u;
    WriteBytesPaints(t, text);
    PlainKeepsAtEnd(t, m, text, REACH);
    NewlineKeepsAtEnd(m, REACH);
    RowsBelow(t.cursor.line, |text|, t.columns);
    WrittenAppends(t, m, text);
    NewlineAppends(m);
    AppendedTransitive(t, m, u);
    WrittenIsShown(t, m, text);
    OffsetAddress(t.cursor, |text|, t.columns);
    SegmentStays(m, u, Address(t.cursor, t.columns), Cells(text, LIGHT_GRAY), Address(m.cursor, m.columns));
  }

  /** What is shown before `below` stays if that part of the screen does. */
  lemma {:induction false} LinesStay(t: Term, u: Term, row: nat, lines: seq<Bytes>, below: nat)
    requires Shaped(t) && Shaped(u) && u.columns == t.columns && Undisturbed(t, u, below) && LinesShown(t, row, lines)
    requires (row + TotalRows(lines, t.columns)) * t.columns <= below
    ensures LinesShown(u, row, lines)
    decreases |lines|
  {
    if lines != [] {
      var w, n := t.columns, |lines[0]|;
      var next := row + RowsOf(n, w);
      RowsHold(row, n, w);
      TimesMonotone(w, next, row + TotalRows(lines, w));
      assert next * w == w * next && (row + TotalRows(lines, w)) * w == w * (row + TotalRows(lines, w));
      SegmentStays(t, u, row * w, Cells(lines[0], LIGHT_GRAY), below);
      LinesStay(t, u, next, lines[1..], below);
    }
  }

  lemma RowsHold(row: nat, n: nat, width: nat)
    requires width > 0
    ensures row * width + n <= (row + RowsOf(n, width)) * width
  {
    RowsBelow(row, n, width);
    OffsetAddress(Position(row, 0), n, width);
    var p := Offset(Position(row, 0), n, width);
    assert (p.line + 1) * width == p.line * width + width;
  }

  lemma LinedSplits(t: Term, lines: seq<Bytes>)
    requires t.log != [] && lines != []
    ensures Print(t, Lined(lines)) == Print(Print(t, Emits(lines[0]) + [Emit(10)]), Lined(lines[1..]))
  {
    var first := Emits(lines[0]) + [Emit(10)];
    assert Lined(lines) == first + Lined(lines[1..]);
    PrintConcat(t, first, Lined(lines[1..]));
  }

  /** A line stays while more is printed below it. */
  lemma LineStays(t: Term, m: Term, u: Term, cells: seq<Cell>)
    requires Appended(t, m) && Appended(m, u) && t.cursor.column == 0
    requires Segment(m, t.cursor.line * t.columns, cells)
    requires Address(t.cursor, t.columns) + |cells| <= Address(m.cursor, m.columns)
    ensures Appended(t, u) && Segment(u, t.cursor.line * t.columns, cells)
  {
    AppendedTransitive(t, m, u);
    SegmentStays(m, u, t.cursor.line * t.columns, cells, Address(m.cursor, m.columns));
  }

  lemma NoLinesShown(t: Term)
    requires Ready(t)
    ensures Appended(t, t)
  {
    AddressInRange(t);
  }

  /** All lines, printed from the start of a row. */
  lemma {:induction false} LinesAreShown(t: Term, lines: seq<Bytes>)
    requires Ready(t) && Printables(lines)
    ensures var u := Print(t, Lined(lines));
            && Ready(u) && Appended(t, u)
            && u.cursor.line == t.cursor.line + TotalRows(lines, t.columns)
            && LinesShown(u, t.cursor.line, lines)
    decreases |lines|
  {
    if lines == [] {
      NoLinesShown(t);
    } else {
      var m := FirstIsShown(t, lines);
      LinesAreShown(m, lines[1..]);
      LineStays(t, m, Print(m, Lined(lines[1..])), Cells(lines[0], LIGHT_GRAY));
    }
  }

  lemma FirstIsShown(t: Term, lines: seq<Bytes>) returns (m: Term)
    requires Ready(t) && Printables(lines) && lines != []
    ensures Ready(m) && Print(t, Lined(lines)) == Print(m, Lined(lines[1..]))
    ensures Appended(t, m) && m.cursor.line == t.cursor.line + RowsOf(|lines[0]|, t.columns)
    ensures Segment(m, t.cursor.line * t.columns, Cells(lines[0], LIGHT_GRAY))
    ensures Address(t.cursor, t.columns) + |lines[0]| <= Address(m.cursor, m.columns)
  {
    m := Print(t, Emits(lines[0]) + [Emit(10)]);
    LinedSplits(t, lines);
    LineIsShown(t, lines[0]);
  }

  /** The prompt after them. */
  lemma PromptBelow(u: Term, history: History.History)
    requires Ready(u) && u.columns >= MIN_COLUMNS
    ensures var d := Prompted(u, history);
            && Appended(u, d.term) && d.shell.anchor == Position(u.cursor.line, PROMPT_WIDTH)
  {
    PromptFacts(u, REACH);
    PromptAppends(u);
  }

  /** The lines stay while more is printed below them. */
  lemma LinesThenPrompt(u: Term, row: nat, lines: seq<Bytes>, d: Term)
    requires Appended(u, d) && LinesShown(u, row, lines)
    requires u.cursor == Position(row + TotalRows(lines, u.columns), 0)
    ensures Shaped(d) && d.columns == u.columns && LinesShown(d, row, lines)
  {
    LinesStay(u, d, row, lines, Address(u.cursor, u.columns));
  }

  /** The typed line with something printed right after it, up to the start of
      the next row. */
  lemma LineIsEnded(c: Console, tail: Bytes) returns (below: Term)
    requires ConsoleInv(c) && AllPrintable(tail)
    ensures Ready(below) && below.columns == c.term.columns >= MIN_COLUMNS
    ensures below == Print(WithLine(c, ToEnd(c.shell.line)).term, Emits(tail) + [Emit(10)])
    ensures below.cursor.line == Offset(c.shell.anchor, |c.shell.line.text + tail|, c.term.columns).line + 1
    ensures Segment(below, Address(c.shell.anchor, c.term.columns), Cells(c.shell.line.text + tail, LIGHT_GRAY))
    ensures Address(c.shell.anchor, c.term.columns) + |c.shell.line.text + tail| <= Address(below.cursor, below.columns)
  {
    var text, a := c.shell.line.text, Address(c.shell.anchor, c.term.columns);
    var typed := LineIsTyped(c);
    OffsetComposes(c.shell.anchor, |text|, |tail|, c.term.columns);
    var cells := Cells(text, LIGHT_GRAY);
    below := TailIsShown(typed, a, cells, tail);
    assert cells + Cells(tail, LIGHT_GRAY) == Cells(text + tail, LIGHT_GRAY);
  }

  /** The typed line, the cursor at its end. */
  lemma LineIsTyped(c: Console) returns (typed: Term)
    requires ConsoleInv(c)
    ensures typed == WithLine(c, ToEnd(c.shell.line)).term
    ensures AtEnd(typed, REACH) && typed.color == LIGHT_GRAY && typed.columns == c.term.columns
    ensures typed.cursor == Offset(c.shell.anchor, |c.shell.line.text|, c.term.columns)
    ensures Segment(typed, Address(c.shell.anchor, c.term.columns), Cells(c.shell.line.text, LIGHT_GRAY))
    ensures Address(typed.cursor, typed.columns) == Address(c.shell.anchor, c.term.columns) + |c.shell.line.text|
  {
    var line := ToEnd(c.shell.line);
    WithLineKeepsInv(c, line);
    typed := WithLine(c, line).term;
    EndOfLineIsAtEnd(WithLine(c, line));
    OffsetIsSteps(c.shell.anchor, |line.text|, c.term.columns);
    OffsetAddress(c.shell.anchor, |line.text|, c.term.columns);
  }

  lemma TailIsShown(t: Term, a: nat, cells: seq<Cell>, tail: Bytes) returns (u: Term)
    requires AtEnd(t, REACH) && t.color == LIGHT_GRAY && AllPrintable(tail)
    requires Segment(t, a, cells) && a + |cells| == Address(t.cursor, t.columns)
    ensures u == Print(t, Emits(tail) + [Emit(10)])
    ensures Ready(u) && u.columns == t.columns && u.cursor.line == Offset(t.cursor, |tail|, t.columns).line + 1
    ensures Segment(u, a, cells + Cells(tail, LIGHT_GRAY))
    ensures a + |cells| + |tail| <= Address(u.cursor, u.columns)
  {
    var m := WriteBytes(t, tail);
    PrintIsWrite(t, tail);
    PrintConcat(t, Emits(tail), [Emit(10)]);
    assert [Emit(10)][1..] == [];
    u := Newline(Live(m));
    assert Print(m, [Emit(10)]) == u;
    WriteBytesPaints(t, tail);
    PlainKeepsAtEnd(t, m, tail, REACH);
    NewlineKeepsAtEnd(m, REACH);
    TailStays(t, m, u, a, cells, tail);
  }

  lemma TailStays(t: Term, m: Term, u: Term, a: nat, cells: seq<Cell>, tail: Bytes)
    requires Sound(t) && t.color == LIGHT_GRAY && WrittenFrom(t, m, tail) && u == Newline(Live(m))
    requires Segment(t, a, cells) && a + |cells| == Address(t.cursor, t.columns)
    ensures Segment(u, a, cells + Cells(tail, LIGHT_GRAY)) && Appended(m, u)
    ensures a + |cells| + |tail| == Address(m.cursor, m.columns) <= Address(u.cursor, u.columns)
  {
    WrittenAppends(t, m, tail);
    WrittenIsShown(t, m, tail);
    OffsetAddress(t.cursor, |tail|, t.columns);
    SegmentStays(t, m, a, cells, a + |cells|);
    SegmentsJoin(m, a, cells, Cells(tail, LIGHT_GRAY));
    NewlineAppends(m);
    SegmentStays(m, u, a, cells + Cells(tail, LIGHT_GRAY), Address(m.cursor, m.columns));
  }

  /** The typed line and what ends it, the lines below it, each from the start
      of a row on, and the prompt on the next row. */
  ghost predicate Concluded(c: Console, d: Console, tail: Bytes, lines: seq<Bytes>)
    requires c.term.columns > 0
  {
    var w, text := c.term.columns, c.shell.line.text + tail;
    var row := Offset(c.shell.anchor, |text|, w).line + 1;
    && Shaped(d.term) && d.term.columns == w
    && Segment(d.term, Address(c.shell.anchor, w), Cells(text, LIGHT_GRAY))
    && LinesShown(d.term, row, lines)
    && d.shell.anchor == Position(row + TotalRows(lines, w), PROMPT_WIDTH)
  }

  lemma PrintSplits(typed: Term, tail: Bytes, output: seq<Op>)
    requires typed.log != []
    ensures Print(typed, Emits(tail) + ([Emit(10)] + output)) == Print(Print(typed, Emits(tail) + [Emit(10)]), output)
  {
    assert Emits(tail) + ([Emit(10)] + output) == Emits(tail) + [Emit(10)] + output;
    PrintConcat(typed, Emits(tail) + [Emit(10)], output);
  }

  lemma ConcludedFrom(c: Console, below: Term, d: Console, tail: Bytes, lines: seq<Bytes>)
    requires Ready(below) && below.columns == c.term.columns && Printables(lines)
    requires below.cursor.line == Offset(c.shell.anchor, |c.shell.line.text + tail|, c.term.columns).line + 1
    requires Segment(below, Address(c.shell.anchor, c.term.columns), Cells(c.shell.line.text + tail, LIGHT_GRAY))
    requires Address(c.shell.anchor, c.term.columns) + |c.shell.line.text + tail| <= Address(below.cursor, below.columns)
    requires var u := Print(below, Lined(lines));
             Appended(u, d.term) && d.shell.anchor == Position(u.cursor.line, PROMPT_WIDTH)
    ensures Concluded(c, d, tail, lines)
  {
    var u := Print(below, Lined(lines));
    LinesAreShown(below, lines);
    LinesThenPrompt(u, below.cursor.line, lines, d.term);
    TypedStays(below, u, d.term, Address(c.shell.anchor, c.term.columns), Cells(c.shell.line.text + tail, LIGHT_GRAY));
  }

  lemma TypedStays(below: Term, u: Term, v: Term, a: nat, cells: seq<Cell>)
    requires Appended(below, u) && Appended(u, v)
    requires Segment(below, a, cells) && a + |cells| <= Address(below.cursor, below.columns)
    ensures Segment(v, a, cells)
  {
    AppendedTransitive(below, u, v);
    SegmentStays(below, v, a, cells, Address(below.cursor, below.columns));
  }

  lemma ConcludingShows(c: Console, tail: Bytes, lines: seq<Bytes>, history: History.History)
    requires ConsoleInv(c) && AllPrintable(tail) && Printables(lines)
    ensures Concluded(c, Conclude(c, Emits(tail) + ([Emit(10)] + Lined(lines)), history), tail, lines)
  {
    var typed := WithLine(c, ToEnd(c.shell.line)).term;
    var below := LineIsEnded(c, tail);
    LinesAreShown(below, lines);
    PromptBelow(Print(below, Lined(lines)), history);
    ConcludedFrom(c, below, Prompted(Print(below, Lined(lines)), history), tail, lines);
    PrintSplits(typed, tail, Lined(lines));
  }

  /** Enter leaves the typed line where it is and shows each line of the output
      below it, from the start of a row on; the new prompt follows on the next
      row. */
  lemma EnterShowsTheOutput(c: Console, key: Key, names: seq<Bytes>, lines: seq<Bytes>)
    requires ConsoleInv(c) && IsEnter(key) && Printables(lines)
    ensures Concluded(c, HandleKey(c, key, names, Lined(lines)), [], lines)
  {
    EnterDecodes(key);
    assert Emits([]) + ([Emit(10)] + Lined(lines)) == [Emit(10)] + Lined(lines);
    ConcludingShows(c, [], lines, AfterSubmit(c.shell));
  }

  // "^C"
  const CARET_C: Bytes := [94, 67]

  lemma CancelledIs(output: seq<Op>)
    ensures CANCELLED + output == Emits(CARET_C) + ([Emit(10)] + output)
  {
  }

  /** Lost input puts "^C" after the typed line and its explanation below. */
  lemma LosingShows(c: Console, lines: seq<Bytes>)
    requires ConsoleInv(c) && Printables(lines)
    ensures Concluded(c, InputLost(c, Lined(lines)), CARET_C, lines)
  {
    CancelledIs(Lined(lines));
    ConcludingShows(c, CARET_C, lines, Unbrowsed(c.shell.history));
  }

  /** Ctrl+C puts "^C" after the typed line. */
  lemma CancellingShows(c: Console, names: seq<Bytes>, output: seq<Op>)
    requires ConsoleInv(c)
    ensures Concluded(c, HandleKey(c, Unicode(3), names, output), CARET_C, [])
  {
    assert Decode(Unicode(3)) == Cancel;
    CancelledIs(Lined([]));
    assert CANCELLED + Lined([]) == CANCELLED;
    ConcludingShows(c, CARET_C, [], Unbrowsed(c.shell.history));
  }

  /** A Tab that lists shows the names on the row below, and the line again after
      the new prompt. */
  lemma ListingShows(c: Console, names: seq<Bytes>, output: seq<Op>, found: seq<Bytes>)
    requires ConsoleInv(c) && Printables(names) && Complete(names, c.shell.line) == Listed(found)
    ensures var d := HandleKey(c, Unicode(9), names, output);
            Concluded(c, d, [], [Joined(found)]) && InputShown(d.term, d.shell.anchor, c.shell.line.text)
  {
    CompletionKeepsOk(names, c.shell.line);
    TabOffers(c, Unicode(9), names, output, found);
    OfferedShows(c, found);
  }

  lemma TabOffers(c: Console, key: Key, names: seq<Bytes>, output: seq<Op>, found: seq<Bytes>)
    requires c.term.log != [] && c.shell.line.cursor <= |c.shell.line.text| && History.BrowsingOk(c.shell.history)
    requires Decode(key) == Tab && Complete(names, c.shell.line) == Listed(found)
    ensures HandleKey(c, key, names, output) == Offered(c, found)
  {
  }

  /** The names, two spaces after each. */
  function Joined(names: seq<Bytes>): Bytes {
    if names == [] then [] else names[0] + [32, 32] + Joined(names[1..])
  }

  lemma {:induction false} JoinedListing(names: seq<Bytes>)
    requires Printables(names)
    ensures AllPrintable(Joined(names)) && Listing(names) == Emits(Joined(names)) + [Emit(10)]
    decreases |names|
  {
    if names != [] {
      JoinedListing(names[1..]);
      var front := names[0] + [32, 32];
      assert Emits(front) + Emits(Joined(names[1..])) == Emits(front + Joined(names[1..]));
    }
  }

  lemma OneLine(found: seq<Bytes>)
    requires Printables(found)
    ensures [Emit(10)] + Listing(found) == Emits([]) + ([Emit(10)] + Lined([Joined(found)]))
    ensures Printables([Joined(found)])
  {
    JoinedListing(found);
    var lines := [Joined(found)];
    assert lines[1..] == [] && Lined(lines) == Emits(Joined(found)) + ([Emit(10)] + []);
    assert [Emit(10)] + [] == [Emit(10)] && Lined(lines) == Listing(found);
  }

  lemma OfferedShows(c: Console, found: seq<Bytes>)
    requires ConsoleInv(c) && Printables(found)
    ensures Concluded(c, Offered(c, found), [], [Joined(found)])
    ensures ConsoleInv(Offered(c, found))
    ensures InputShown(Offered(c, found).term, Offered(c, found).shell.anchor, c.shell.line.text)
  {
    ListingConcludes(c, found);
    RedrawnStays(c, Conclude(c, [Emit(10)] + Listing(found), c.shell.history), [Joined(found)]);
  }

  lemma ListingConcludes(c: Console, found: seq<Bytes>)
    requires ConsoleInv(c) && Printables(found)
    ensures var d := Conclude(c, [Emit(10)] + Listing(found), c.shell.history);
            Concluded(c, d, [], [Joined(found)]) && ConsoleInv(d) && d.shell.line == LineEditor.EMPTY
  {
    OneLine(found);
    var ops := [Emit(10)] + Listing(found);
    ConcludingShows(c, [], [Joined(found)], c.shell.history);
    ListingIsClean(found);
    assert Clean(ops);
    ConcludeKeepsInv(c, ops, c.shell.history);
  }

  /** Drawing the line again after the prompt disturbs nothing above. */
  lemma RedrawnStays(c: Console, shown: Console, lines: seq<Bytes>)
    requires ConsoleInv(c) && ConsoleInv(shown) && shown.shell.line == LineEditor.EMPTY
    requires Concluded(c, shown, [], lines)
    ensures var d := Redraw(shown.(shell := shown.shell.(line := ToEnd(c.shell.line))), |c.shell.line.text|);
            Concluded(c, d, [], lines) && ConsoleInv(d) && InputShown(d.term, d.shell.anchor, c.shell.line.text)
  {
    var line := ToEnd(c.shell.line);
    WithLineKeepsInv(shown, line);
    var d := WithLine(shown, line);
    assert SaturatingSub(|c.shell.line.text|, |line.text|) == SaturatingSub(0, |line.text|) == 0;
    assert d == Redraw(shown.(shell := shown.shell.(line := line)), |c.shell.line.text|);
    AboveStays(c, shown, d, lines);
  }

  lemma AboveStays(c: Console, shown: Console, d: Console, lines: seq<Bytes>)
    requires Sound(c.term) && Shaped(shown.term) && Shaped(d.term) && d.term.columns == shown.term.columns
    requires Concluded(c, shown, [], lines) && d.shell.anchor == shown.shell.anchor
    requires Undisturbed(shown.term, d.term, Address(shown.shell.anchor, shown.term.columns))
    ensures Concluded(c, d, [], lines)
  {
    var w, text, below := c.term.columns, c.shell.line.text + [], Address(shown.shell.anchor, shown.term.columns);
    var end := Offset(c.shell.anchor, |text|, w);
    var row, total := end.line + 1, TotalRows(lines, w);
    OffsetAddress(c.shell.anchor, |text|, w);
    EndsAbove(end, row, total, w);
    SegmentStays(shown.term, d.term, Address(c.shell.anchor, w), Cells(text, LIGHT_GRAY), below);
    LinesStay(shown.term, d.term, row, lines, below);
  }

  lemma EndsAbove(end: Position, row: nat, total: nat, w: nat)
    requires end.column <= w && row == end.line + 1
    ensures Address(end, w) <= (row + total) * w
  {
    assert (row + total) * w == end.line * w + w + total * w;
  }
}
