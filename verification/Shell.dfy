/** The shell on its terminal: key handling, prompts and redraws. */
module Shell {
  import opened Prelude
  import opened Cursor
  import opened Terminal
  import opened Painting
  import LineEditor
  import History
  import opened Completion

  type Line = LineEditor.Line

  datatype RawKey =
    HomeKey | EndKey | ArrowLeft | ArrowRight | ArrowUp | ArrowDown | DeleteKey | PageUp | PageDown | OtherKey

  /** `DecodedKey`. */
  datatype Key = Unicode(code: nat) | Raw(key: RawKey)

  datatype Shell = Shell(line: Line, history: History.History, anchor: Position)

  datatype Console = Console(term: Term, shell: Shell)

  // Foreground colours on black.
  const LIGHT_GREEN: byte := 10
  const LIGHT_BLUE: byte := 9

  /** `prompt`; the anchor is the cursor it leaves. */
  function Prompt(t: Term): (u: Term)
    requires t.log != []
    ensures u.log != []
  {
    var a := WriteBytes(t.(color := LIGHT_GREEN), Text("shaolin@crabos"));
    var b := WriteBytes(a.(color := LIGHT_GRAY), Text(":"));
    var c := WriteBytes(b.(color := LIGHT_BLUE), Text("~"));
    WriteBytes(c.(color := LIGHT_GRAY), Text("$ "))
  }

  const PROMPT_WIDTH := 18

  /** `redraw`. */
  function Redraw(c: Console, oldLen: nat): Console
    requires c.term.log != []
  {
    c.(term := ReplaceInput(c.term, c.shell.anchor, c.shell.line.text, c.shell.line.cursor, oldLen))
  }

  /** A new prompt and an empty line. */
  function Prompted(t: Term, history: History.History): Console
    requires t.log != []
  {
    var u := Prompt(t);
    Console(u, Shell(LineEditor.EMPTY, history, u.cursor))
  }

  /** The output of a command, a message or a banner: any bytes without a
      carriage return, ending with a newline or a clear. */
  predicate Clean(ops: seq<Op>) {
    NoReturns(ops) && EndsLine(ops)
  }

  function ToEnd(l: Line): Line {
    l.(cursor := |l.text|)
  }

  /** Leave the line as typed, print after it, and prompt again. */
  function Conclude(c: Console, output: seq<Op>, history: History.History): Console
    requires c.term.log != []
  {
    Prompted(Print(WithLine(c, ToEnd(c.shell.line)).term, output), history)
  }

  function Unbrowsed(h: History.History): History.History {
    h.(browsing := None)
  }

  /** Enter: record the line unless it overflowed, execute it, print. */
  function AfterSubmit(s: Shell): History.History {
    if s.line.overflow then Unbrowsed(s.history) else History.Record(s.history, ToEnd(s.line))
  }

  /** Replace the line and redraw over the old one. */
  function WithLine(c: Console, line: Line): Console
    requires c.term.log != []
  {
    Redraw(c.(shell := c.shell.(line := line)), |c.shell.line.text|)
  }

  /** The names offered by Tab, two spaces after each, on their own line. */
  function Listing(names: seq<Bytes>): seq<Op> {
    if names == [] then [Emit(10)]
    else Emits(names[0] + [32, 32]) + Listing(names[1..])
  }

  function Emits(text: Bytes): seq<Op> {
    seq(|text|, i requires 0 <= i < |text| => Emit(text[i]))
  }

  datatype Command =
    | Submit | Cancel | ClearScreen | Tab | Edit(edit: LineEditor.Edit)
    | Up | Down | ScrollBack | ScrollForward | Ignore

  /** The match of `handle_key`, in its order. */
  function Decode(key: Key): Command {
    match key
    case Raw(raw) =>
      (match raw
       case HomeKey => Edit(LineEditor.Home)
       case EndKey => Edit(LineEditor.End)
       case ArrowLeft => Edit(LineEditor.Left)
       case ArrowRight => Edit(LineEditor.Right)
       case ArrowUp => Up
       case ArrowDown => Down
       case DeleteKey => Edit(LineEditor.Del)
       case PageUp => ScrollBack
       case PageDown => ScrollForward
       case OtherKey => Ignore)
    case Unicode(c) =>
      if c == 10 || c == 13 then Submit
      else if c == 3 then Cancel
      else if c == 12 then ClearScreen
      else if c == 9 then Tab
      else if c == 8 then Edit(LineEditor.Back)
      else if c == 127 || c == 4 then Edit(LineEditor.Del)
      else if c == 1 then Edit(LineEditor.Home)
      else if c == 5 then Edit(LineEditor.End)
      else if c == 2 then Edit(LineEditor.Left)
      else if c == 6 then Edit(LineEditor.Right)
      else if c == 16 then Up
      else if c == 14 then Down
      else if c == 21 then Edit(LineEditor.KillStart)
      else if c == 11 then Edit(LineEditor.KillEnd)
      else if c == 23 then Edit(LineEditor.Word)
      else if c < 128 then Edit(LineEditor.Type(c))
      else Ignore
  }

  // ---------------------------------------------------------------------
  // Invariant

  const MIN_COLUMNS := 36

  /** Lines that input of 256 bytes can reach below an anchor in column 18. */
  const REACH := 7

  /** The prompt in its colours. */
  function PromptCells(): (cells: seq<Cell>)
    ensures |cells| == PROMPT_WIDTH
  {
    Cells(Text("shaolin@crabos"), LIGHT_GREEN) + Cells(Text(":"), LIGHT_GRAY) +
    Cells(Text("~"), LIGHT_BLUE) + Cells(Text("$ "), LIGHT_GRAY)
  }

  /** The prompt is shown right before the anchor. */
  ghost predicate PromptShown(t: Term, anchor: Position)
    requires anchor.column == PROMPT_WIDTH
  {
    Segment(t, Address(anchor, t.columns) - PROMPT_WIDTH, PromptCells())
  }

  /** The terminal shows the prompt before the anchor and the line after it, and
      the cursor is where stepping over the bytes before it leads. */
  ghost predicate ConsoleInv(c: Console) {
    var t, s := c.term, c.shell;
    && Sound(t) && t.color == LIGHT_GRAY && t.columns >= MIN_COLUMNS
    && LineEditor.LineOk(s.line) && History.HistoryOk(s.history)
    && s.anchor.column == PROMPT_WIDTH && s.anchor.line < |t.log|
    && LastLine(t) <= s.anchor.line + REACH
    && PromptShown(t, s.anchor)
    && InputShown(t, s.anchor, s.line.text)
    && t.cursor == Steps(s.anchor, s.line.cursor, t.columns)
  }

  lemma ReachOfInput(anchor: Position, n: nat, width: nat)
    requires anchor.column == PROMPT_WIDTH && n <= LineEditor.MAX_INPUT && width >= MIN_COLUMNS
    ensures Offset(anchor, n, width).line <= anchor.line + REACH
  {
    var o := anchor.column + n;
    var q := o / width;
    assert o == width * q + o % width;
    assert q >= 8 ==> width * q >= MIN_COLUMNS * 8;
  }

  lemma PromptStays(t: Term, u: Term, anchor: Position)
    requires Shaped(t) && Shaped(u) && u.columns == t.columns && anchor.column == PROMPT_WIDTH
    requires PromptShown(t, anchor) && Undisturbed(t, u, Address(anchor, t.columns))
    ensures PromptShown(u, anchor)
  {
    SegmentBeforeStays(t, u, Address(anchor, t.columns), PromptCells());
  }

  /** Any change of the line, followed by a redraw, keeps the invariant and
      leaves everything before the anchor alone. */
  lemma WithLineKeepsInv(c: Console, line: Line)
    requires ConsoleInv(c) && LineEditor.LineOk(line)
    ensures var d := WithLine(c, line);
            && ConsoleInv(d) && d.term.faults == c.term.faults && d.term.columns == c.term.columns
            && d.shell == c.shell.(line := line)
            && Undisturbed(c.term, d.term, Address(c.shell.anchor, c.term.columns))
  {
    var t, s := c.term, c.shell;
    assert AllPrintable(line.text);
    RedrawShowsInput(t, s.anchor, s.line.text, line.text, line.cursor);
    PromptStays(t, WithLine(c, line).term, s.anchor);
    ReachOfInput(s.anchor, Max(|s.line.text|, |line.text|), t.columns);
  }

  /** With the cursor at the end of the line the terminal is at its end. */
  lemma EndOfLineIsAtEnd(c: Console)
    requires ConsoleInv(c) && c.shell.line.cursor == |c.shell.line.text|
    ensures AtEnd(c.term, REACH)
  {
    var t, s := c.term, c.shell;
    OffsetIsSteps(s.anchor, s.line.cursor, t.columns);
    OffsetAddress(s.anchor, s.line.cursor, t.columns);
  }

  lemma OffsetWithinRow(p: Position, n: nat, width: nat)
    requires p.column + n < width
    ensures Offset(p, n, width) == Position(p.line, p.column + n)
  {
  }

  lemma RecolouredAtEnd(t: Term, color: byte, k: nat)
    requires AtEnd(t, k)
    ensures AtEnd(t.(color := color), k)
  {
  }

  lemma PromptPiece(t: Term, color: byte, text: Bytes, k: nat)
    requires AtEnd(t, k) && AllPrintable(text) && t.cursor.column + |text| < t.columns
    ensures var u := WriteBytes(t.(color := color), text);
            && AtEnd(u, k) && u.faults == t.faults && u.columns == t.columns && u.color == color
            && u.cursor == Position(t.cursor.line, t.cursor.column + |text|)
  {
    var s := t.(color := color);
    RecolouredAtEnd(t, color, k);
    WriteBytesPaints(s, text);
    PlainKeepsAtEnd(s, WriteBytes(s, text), text, k);
    OffsetWithinRow(s.cursor, |text|, s.columns);
  }

  lemma PromptFacts(t: Term, k: nat)
    requires AtEnd(t, k) && t.cursor.column == 0 && t.columns >= MIN_COLUMNS
    ensures var u := Prompt(t);
            && AtEnd(u, k) && u.faults == t.faults && u.columns == t.columns && u.color == LIGHT_GRAY
            && u.cursor == Position(t.cursor.line, PROMPT_WIDTH)
  {
    var name, colon, tilde, dollar := Text("shaolin@crabos"), Text(":"), Text("~"), Text("$ ");
    var a := WriteBytes(t.(color := LIGHT_GREEN), name);
    PromptPiece(t, LIGHT_GREEN, name, k);
    var b := WriteBytes(a.(color := LIGHT_GRAY), colon);
    PromptPiece(a, LIGHT_GRAY, colon, k);
    var c := WriteBytes(b.(color := LIGHT_BLUE), tilde);
    PromptPiece(b, LIGHT_BLUE, tilde, k);
    PromptPiece(c, LIGHT_GRAY, dollar, k);
  }

  /** One more piece of the prompt after what is already shown. */
  lemma PieceExtends(t: Term, color: byte, text: Bytes, a: nat, shown: seq<Cell>)
    requires AtEnd(t, REACH) && AllPrintable(text) && t.cursor.column + |text| < t.columns
    requires Segment(t, a, shown) && a + |shown| == Address(t.cursor, t.columns)
    ensures var u := WriteBytes(t.(color := color), text);
            && AtEnd(u, REACH) && u.columns == t.columns && u.cursor.column == t.cursor.column + |text|
            && Segment(u, a, shown + Cells(text, color))
            && a + |shown + Cells(text, color)| == Address(u.cursor, u.columns)
  {
    var s := t.(color := color);
    var u := WriteBytes(s, text);
    PromptPiece(t, color, text, REACH);
    assert Shown(s) == Shown(t);
    WriteBytesPaints(s, text);
    WrittenIsShown(s, u, text);
    WrittenAppends(s, u, text);
    SegmentStays(s, u, a, shown, a + |shown|);
    SegmentsJoin(u, a, shown, Cells(text, color));
  }

  lemma PromptIsShown(t: Term)
    requires AtEnd(t, REACH) && t.cursor.column == 0 && t.columns >= MIN_COLUMNS
    ensures Segment(Prompt(t), Address(t.cursor, t.columns), PromptCells())
  {
    var name, colon, tilde, dollar := Text("shaolin@crabos"), Text(":"), Text("~"), Text("$ ");
    var start := Address(t.cursor, t.columns);
    AddressInRange(t);
    assert Segment(t, start, []);
    var a := WriteBytes(t.(color := LIGHT_GREEN), name);
    PieceExtends(t, LIGHT_GREEN, name, start, []);
    var x := [] + Cells(name, LIGHT_GREEN);
    var b := WriteBytes(a.(color := LIGHT_GRAY), colon);
    PieceExtends(a, LIGHT_GRAY, colon, start, x);
    var y := x + Cells(colon, LIGHT_GRAY);
    var c := WriteBytes(b.(color := LIGHT_BLUE), tilde);
    PieceExtends(b, LIGHT_BLUE, tilde, start, y);
    PieceExtends(c, LIGHT_GRAY, dollar, start, y + Cells(tilde, LIGHT_BLUE));
    assert x == Cells(name, LIGHT_GREEN);
  }

  /** A prompt printed in column 0 establishes the invariant. */
  lemma PromptedInv(t: Term, history: History.History)
    requires AtEnd(t, REACH) && t.cursor.column == 0 && t.columns >= MIN_COLUMNS
    requires History.HistoryOk(history)
    ensures var d := Prompted(t, history);
            && ConsoleInv(d) && d.term.faults == t.faults && d.term.columns == t.columns
            && d.shell.line == LineEditor.EMPTY && d.shell.history == history
  {
    PromptFacts(t, REACH);
    PromptIsShown(t);
  }

  /** Enter, Ctrl+C and lost input: print after the line and prompt again. */
  lemma ConcludeKeepsInv(c: Console, output: seq<Op>, history: History.History)
    requires ConsoleInv(c) && Clean(output) && output != [] && History.HistoryOk(history)
    ensures var d := Conclude(c, output, history);
            && ConsoleInv(d) && d.term.faults == c.term.faults && d.term.columns == c.term.columns
            && d.shell.line == LineEditor.EMPTY && d.shell.history == history
  {
    var line := ToEnd(c.shell.line);
    WithLineKeepsInv(c, line);
    var t := WithLine(c, line).term;
    EndOfLineIsAtEnd(WithLine(c, line));
    PrintKeepsAtEnd(t, output, REACH);
    EndsInColumnZero(t, output);
    PromptedInv(Print(t, output), history);
  }

  /** A cleared terminal of sufficient width takes a fresh prompt. */
  lemma ClearedInv(t: Term, output: seq<Op>, history: History.History)
    requires MIN_COLUMNS <= t.columns <= WIDTH && Clean(output) && History.HistoryOk(history)
    ensures var d := Prompted(Print(Clear(t), output), history);
            && ConsoleInv(d) && d.term.faults == t.faults && d.term.columns == t.columns
            && d.shell.line == LineEditor.EMPTY && d.shell.history == history
  {
    ClearedIsAtEnd(t, REACH);
    PrintKeepsAtEnd(Clear(t), output, REACH);
    EndsInColumnZero(Clear(t), output);
    PromptedInv(Print(Clear(t), output), history);
  }

  // ---------------------------------------------------------------------
  // Keys

  const CANCELLED: seq<Op> := [Emit(94), Emit(67), Emit(10)]

  /** `clear`, prompt and redraw: Ctrl+L. */
  function Cleared(c: Console): Console
    requires c.term.log != []
  {
    var blank := Prompted(Clear(c.term), c.shell.history);
    Redraw(blank.(shell := blank.shell.(line := c.shell.line)), 0)
  }

  /** Show the names, then prompt and draw the line again. */
  function Offered(c: Console, names: seq<Bytes>): Console
    requires c.term.log != []
  {
    var shown := Conclude(c, [Emit(10)] + Listing(names), c.shell.history);
    var again := shown.(shell := shown.shell.(line := ToEnd(c.shell.line)));
    Redraw(again, |c.shell.line.text|)
  }

  /** The names that Tab completes. */
  predicate Printables(names: seq<Bytes>) {
    forall i :: 0 <= i < |names| ==> AllPrintable(names[i])
  }

  /** `handle_key`; `names` is the command table and `output` is what an
      executed command prints. */
  function HandleKey(c: Console, key: Key, names: seq<Bytes>, output: seq<Op>): Console
    requires c.term.log != []
    requires c.shell.line.cursor <= |c.shell.line.text| && History.BrowsingOk(c.shell.history)
  {
    Perform(c, Decode(key), names, output)
  }

  function Perform(c: Console, command: Command, names: seq<Bytes>, output: seq<Op>): Console
    requires c.term.log != []
    requires c.shell.line.cursor <= |c.shell.line.text| && History.BrowsingOk(c.shell.history)
  {
    match command
    case Submit => Conclude(c, [Emit(10)] + output, AfterSubmit(c.shell))
    case Cancel => Conclude(c, CANCELLED, Unbrowsed(c.shell.history))
    case ClearScreen => Cleared(c)
    case Tab =>
      (match Complete(names, c.shell.line)
       case Unchanged => c
       case Extended(line) => WithLine(c, line)
       case Listed(found) => Offered(c, found))
    case Edit(edit) => WithLine(c, LineEditor.Apply(c.shell.line, edit))
    case Up =>
      var (history, line) := History.Previous(c.shell.history, c.shell.line);
      WithLine(c.(shell := c.shell.(history := history)), line)
    case Down =>
      var (history, line) := History.Next(c.shell.history, c.shell.line);
      WithLine(c.(shell := c.shell.(history := history)), line)
    case ScrollBack => c.(term := ScrollUp(c.term))
    case ScrollForward => c.(term := ScrollDown(c.term))
    case Ignore => c
  }

  /** `input_lost`, with its three lines of explanation. */
  function InputLost(c: Console, output: seq<Op>): Console
    requires c.term.log != []
  {
    Conclude(c, CANCELLED + output, Unbrowsed(c.shell.history))
  }

  /** What every key handler keeps. */
  ghost predicate Kept(c: Console, d: Console) {
    ConsoleInv(d) && d.term.faults == c.term.faults && d.term.columns == c.term.columns
  }

  lemma SubmitKeepsInv(c: Console, output: seq<Op>)
    requires ConsoleInv(c) && Clean(output)
    ensures Kept(c, Conclude(c, [Emit(10)] + output, AfterSubmit(c.shell)))
  {
    if !c.shell.line.overflow {
      History.RecordKeepsOk(c.shell.history, ToEnd(c.shell.line));
    }
    assert Clean([Emit(10)] + output);
    ConcludeKeepsInv(c, [Emit(10)] + output, AfterSubmit(c.shell));
  }

  lemma CancelKeepsInv(c: Console)
    requires ConsoleInv(c)
    ensures Kept(c, Conclude(c, CANCELLED, Unbrowsed(c.shell.history)))
  {
    ConcludeKeepsInv(c, CANCELLED, Unbrowsed(c.shell.history));
  }

  lemma ClearedKeepsInv(c: Console)
    requires ConsoleInv(c)
    ensures Kept(c, Cleared(c))
  {
    ClearedInv(c.term, [], c.shell.history);
    var blank := Prompted(Clear(c.term), c.shell.history);
    assert Print(Clear(c.term), []) == Clear(c.term);
    WithLineKeepsInv(blank, c.shell.line);
    assert |blank.shell.line.text| == 0;
  }

  lemma {:induction false} ListingIsClean(names: seq<Bytes>)
    requires forall i :: 0 <= i < |names| ==> AllPrintable(names[i])
    ensures Clean(Listing(names)) && Listing(names) != []
    decreases |names|
  {
    if names != [] {
      ListingIsClean(names[1..]);
    }
  }

  lemma OfferedKeepsInv(c: Console, names: seq<Bytes>)
    requires ConsoleInv(c) && Printables(names)
    ensures Kept(c, Offered(c, names))
  {
    ListingIsClean(names);
    var ops := [Emit(10)] + Listing(names);
    assert Clean(ops);
    ConcludeKeepsInv(c, ops, c.shell.history);
    var shown := Conclude(c, ops, c.shell.history);
    var line := ToEnd(c.shell.line);
    WithLineKeepsInv(shown, line);
    assert SaturatingSub(|c.shell.line.text|, |line.text|) == SaturatingSub(|shown.shell.line.text|, |line.text|) == 0;
    assert Offered(c, names) == WithLine(shown, line);
  }

  lemma TabKeepsInv(c: Console, names: seq<Bytes>, output: seq<Op>)
    requires ConsoleInv(c) && Printables(names)
    ensures Kept(c, Perform(c, Tab, names, output))
  {
    CompletionKeepsOk(names, c.shell.line);
    match Complete(names, c.shell.line)
    case Unchanged =>
    case Extended(line) => WithLineKeepsInv(c, line);
    case Listed(found) => OfferedKeepsInv(c, found);
  }

  lemma CompletionKeepsOk(names: seq<Bytes>, l: Line)
    requires LineEditor.LineOk(l) && forall i :: 0 <= i < |names| ==> AllPrintable(names[i])
    ensures var r := Complete(names, l);
            && (r.Extended? ==> LineEditor.LineOk(r.line))
            && (r.Listed? ==> forall i :: 0 <= i < |r.names| ==> AllPrintable(r.names[i]))
  {
    var found := Matching(names, l.text);
    if found != [] {
      var common := CommonLen(found[0], found[1..], |found[0]|);
      var grown := if |l.text| <= common then InsertAll(l, found[0][|l.text|..common]) else l;
      if |l.text| <= common {
        InsertAllKeepsOk(l, found[0][|l.text|..common]);
      }
      LineEditor.EditKeepsOk(grown, LineEditor.Type(32));
    }
  }

  lemma EditKeepsInv(c: Console, edit: LineEditor.Edit)
    requires ConsoleInv(c)
    ensures Kept(c, WithLine(c, LineEditor.Apply(c.shell.line, edit)))
  {
    LineEditor.EditKeepsOk(c.shell.line, edit);
    WithLineKeepsInv(c, LineEditor.Apply(c.shell.line, edit));
  }

  lemma UpKeepsInv(c: Console)
    requires ConsoleInv(c)
    ensures var (history, line) := History.Previous(c.shell.history, c.shell.line);
            Kept(c, WithLine(c.(shell := c.shell.(history := history)), line))
  {
    History.BrowseKeepsOk(c.shell.history, c.shell.line);
    var (history, line) := History.Previous(c.shell.history, c.shell.line);
    WithLineKeepsInv(c.(shell := c.shell.(history := history)), line);
  }

  lemma DownKeepsInv(c: Console)
    requires ConsoleInv(c)
    ensures var (history, line) := History.Next(c.shell.history, c.shell.line);
            Kept(c, WithLine(c.(shell := c.shell.(history := history)), line))
  {
    History.BrowseKeepsOk(c.shell.history, c.shell.line);
    var (history, line) := History.Next(c.shell.history, c.shell.line);
    WithLineKeepsInv(c.(shell := c.shell.(history := history)), line);
  }

  lemma ScrollKeepsInv(c: Console)
    requires ConsoleInv(c)
    ensures Kept(c, c.(term := ScrollUp(c.term))) && Kept(c, c.(term := ScrollDown(c.term)))
  {
    assert Shown(ScrollUp(c.term)) == Shown(ScrollDown(c.term)) == Shown(c.term);
  }

  lemma HandleKeyKeepsInv(c: Console, key: Key, names: seq<Bytes>, output: seq<Op>)
    requires ConsoleInv(c) && Printables(names) && Clean(output)
    ensures Kept(c, HandleKey(c, key, names, output))
  {
    PerformKeepsInv(c, Decode(key), names, output);
  }

  lemma PerformKeepsInv(c: Console, command: Command, names: seq<Bytes>, output: seq<Op>)
    requires ConsoleInv(c) && Printables(names) && Clean(output)
    ensures Kept(c, Perform(c, command, names, output))
  {
    match command
    case Submit => SubmitKeepsInv(c, output);
    case Cancel => CancelKeepsInv(c);
    case ClearScreen => ClearedKeepsInv(c);
    case Tab => TabKeepsInv(c, names, output);
    case Edit(edit) => EditKeepsInv(c, edit);
    case Up => UpKeepsInv(c);
    case Down => DownKeepsInv(c);
    case ScrollBack => ScrollKeepsInv(c);
    case ScrollForward => ScrollKeepsInv(c);
    case Ignore =>
  }

  lemma InputLostKeepsInv(c: Console, output: seq<Op>)
    requires ConsoleInv(c) && Clean(output)
    ensures Kept(c, InputLost(c, output))
  {
    assert Clean(CANCELLED + output);
    ConcludeKeepsInv(c, CANCELLED + output, Unbrowsed(c.shell.history));
  }

  /** Commands after which the anchor stays where it is. */
  predicate KeepsAnchor(c: Console, command: Command, names: seq<Bytes>)
    requires c.shell.line.cursor <= |c.shell.line.text|
  {
    match command
    case Submit => false
    case Cancel => false
    case ClearScreen => false
    case Tab => !Complete(names, c.shell.line).Listed?
    case _ => true
  }

  lemma UndisturbedBySame(t: Term, u: Term, a: nat)
    requires Shaped(t) && Shaped(u) && Shown(u) == Shown(t) && a <= |Shown(t)|
    ensures Undisturbed(t, u, a)
  {
  }

  /** Editing, completing, browsing and scrolling never disturb what is shown
      before the anchor. */
  lemma EditingSparesTheScreenAbove(c: Console, key: Key, names: seq<Bytes>, output: seq<Op>)
    requires ConsoleInv(c) && Printables(names) && Clean(output)
    requires KeepsAnchor(c, Decode(key), names)
    ensures var d := HandleKey(c, key, names, output);
            && ConsoleInv(d) && d.shell.anchor == c.shell.anchor
            && Undisturbed(c.term, d.term, Address(c.shell.anchor, c.term.columns))
  {
    HandleKeyKeepsInv(c, key, names, output);
    match Decode(key)
    case Edit(edit) =>
      LineEditor.EditKeepsOk(c.shell.line, edit);
      WithLineKeepsInv(c, LineEditor.Apply(c.shell.line, edit));
    case Up =>
      History.BrowseKeepsOk(c.shell.history, c.shell.line);
      var (history, line) := History.Previous(c.shell.history, c.shell.line);
      WithLineKeepsInv(c.(shell := c.shell.(history := history)), line);
    case Down =>
      History.BrowseKeepsOk(c.shell.history, c.shell.line);
      var (history, line) := History.Next(c.shell.history, c.shell.line);
      WithLineKeepsInv(c.(shell := c.shell.(history := history)), line);
    case Tab =>
      CompletionKeepsOk(names, c.shell.line);
      if Complete(names, c.shell.line).Extended? {
        WithLineKeepsInv(c, Complete(names, c.shell.line).line);
      }
    case ScrollBack => UndisturbedBySame(c.term, ScrollUp(c.term), Address(c.shell.anchor, c.term.columns));
    case ScrollForward => UndisturbedBySame(c.term, ScrollDown(c.term), Address(c.shell.anchor, c.term.columns));
    case Ignore =>
  }

  lemma PromptAppends(t: Term)
    requires AtEnd(t, REACH) && t.cursor.column == 0 && t.columns >= MIN_COLUMNS
    ensures Appended(t, Prompt(t))
  {
    var name, colon, tilde, dollar := Text("shaolin@crabos"), Text(":"), Text("~"), Text("$ ");
    var a := WriteBytes(t.(color := LIGHT_GREEN), name);
    PieceAppends(t, LIGHT_GREEN, name);
    var b := WriteBytes(a.(color := LIGHT_GRAY), colon);
    PieceAppends(a, LIGHT_GRAY, colon);
    var c := WriteBytes(b.(color := LIGHT_BLUE), tilde);
    PieceAppends(b, LIGHT_BLUE, tilde);
    PieceAppends(c, LIGHT_GRAY, dollar);
    AppendedTransitive(t, a, b);
    AppendedTransitive(t, b, c);
    AppendedTransitive(t, c, Prompt(t));
  }

  lemma PieceAppends(t: Term, color: byte, text: Bytes)
    requires Sound(t) && AllPrintable(text)
    ensures Appended(t, WriteBytes(t.(color := color), text))
  {
    var s := t.(color := color);
    assert Shown(s) == Shown(t);
    WriteBytesPaints(s, text);
    WrittenAppends(s, WriteBytes(s, text), text);
  }

  /** Enter, Ctrl+C, a Tab listing and lost input leave the line as typed on
      the screen, with everything above it, unless the output clears. */
  lemma OutputOnlyAppends(c: Console, output: seq<Op>, history: History.History)
    requires ConsoleInv(c) && Clean(output) && output != [] && NoWipes(output) && History.HistoryOk(history)
    ensures var typed := WithLine(c, ToEnd(c.shell.line)).term;
            && Appended(typed, Conclude(c, output, history).term)
            && InputShown(typed, c.shell.anchor, c.shell.line.text)
            && Undisturbed(c.term, typed, Address(c.shell.anchor, c.term.columns))
            && Address(typed.cursor, typed.columns) == Address(c.shell.anchor, c.term.columns) + |c.shell.line.text|
  {
    var line := ToEnd(c.shell.line);
    WithLineKeepsInv(c, line);
    var d := WithLine(c, line);
    OffsetIsSteps(c.shell.anchor, line.cursor, c.term.columns);
    OffsetAddress(c.shell.anchor, line.cursor, c.term.columns);
    EndOfLineIsAtEnd(d);
    PrintKeepsAtEnd(d.term, output, REACH);
    EndsInColumnZero(d.term, output);
    PrintAppends(d.term, output);
    PromptAppends(Print(d.term, output));
    AppendedTransitive(d.term, Print(d.term, output), Prompt(Print(d.term, output)));
  }

  // ---------------------------------------------------------------------
  // Runs of keys on one terminal

  datatype KeyPress = KeyPress(key: Key, output: seq<Op>)

  ghost function Presses(c: Console, names: seq<Bytes>, keys: seq<KeyPress>): (d: Console)
    requires ConsoleInv(c) && Printables(names) && forall i :: 0 <= i < |keys| ==> Clean(keys[i].output)
    ensures ConsoleInv(d)
    decreases |keys|
  {
    if keys == [] then c
    else
      HandleKeyKeepsInv(c, keys[0].key, names, keys[0].output);
      Presses(HandleKey(c, keys[0].key, names, keys[0].output), names, keys[1..])
  }

  /** After every key of every run: from the anchor on the terminal shows
      exactly the line and then blanks; the cursor is where stepping over the
      bytes before it leads, which is also the closed form; the anchor
      assertion holds; no byte was written past the last column. */
  lemma {:induction false} EveryKeyLeavesTheLineOnScreen(c: Console, names: seq<Bytes>, keys: seq<KeyPress>)
    requires ConsoleInv(c) && Printables(names) && forall i :: 0 <= i < |keys| ==> Clean(keys[i].output)
    ensures var d := Presses(c, names, keys);
            var t, s := d.term, d.shell;
            && s.anchor.column == PROMPT_WIDTH && PromptShown(t, s.anchor)
            && InputShown(t, s.anchor, s.line.text)
            && t.cursor == Steps(s.anchor, s.line.cursor, t.columns) == Offset(s.anchor, s.line.cursor, t.columns)
            && FirstLine(t) <= s.anchor.line && LastLine(t) - s.anchor.line <= REACH
            && t.cursor.column <= t.columns
            && t.faults == c.term.faults
    decreases |keys|
  {
    if keys == [] {
      OffsetIsSteps(c.shell.anchor, c.shell.line.cursor, c.term.columns);
    } else {
      HandleKeyKeepsInv(c, keys[0].key, names, keys[0].output);
      EveryKeyLeavesTheLineOnScreen(HandleKey(c, keys[0].key, names, keys[0].output), names, keys[1..]);
    }
  }
}
